# A verified model of the amplet2 client

This project models the parts of the amplet2 measurement client whose correctness is hardest to see from
the code, and proves what they promise:

* the test scheduler: the arithmetic that finds the next run of a repeating test, and the loop of firing,
  running and planning again (`Calendar`, `Schedule`, `ScheduleRun`), and the parser of the parameter
  strings in schedule files (`ParamString`);
* the Patricia trie of address prefixes with its bit operations (`AddressBits`, `IpTrie`, `IpTrieHeap`),
  and the threads that look up AS numbers through a shared cache of such tries and a whois server
  (`AsnCache`, `AsnRefresh`, `AsnStream`, `AsnWorker`, `AsnSystem`, `AsnTrace`, `AsnLoop`, `AsnSmooth`,
  `AsnRequests`, `AsnThread`, `AsnService`);
* the access control tree that pushes inherited permissions into itself (`Acl`, `AclHeap`);
* names and records of DNS packets, and the queries of the DNS test (`DnsName`, `DnsPacket`, `DnsNotes`,
  `DnsQuery`);
* the resolver callbacks that share a block of memory (`Resolver`), and messages framed by their length on
  a control connection (`ControlMsg`);
* the fastping test: its packets, its loop and its one-pass statistics (`FastpingPacket`,
  `FastpingStream`, `FastpingStats`), and the Internet checksum (`Checksum`).

Code that updates state in place is modelled by classes and methods that are proved to refine functions
on values; `IpTrieHeap` and `AclHeap` are the in-place forms of `IpTrie` and `Acl`. Code of several threads
is a state machine whose steps are what a thread does between two points where others may step in; results
about it hold for every interleaving. `Arith`, `Seqs`, `Bytes` and `Options` hold shared vocabulary and
facts.

## Conventions

* Integers are unbounded. Where the width of a C integer decides what the code does (the 16-bit length of
  DNS options, sums of 16-bit counts, octets, 32-bit message lengths, 64-bit sequence numbers) it is
  written out.
* A parameter `little` says whether the host is little endian; results hold for both.
* The outside is a parameter: clock readings, outcomes of system calls, sizes of pieces that a socket
  hands over, and the turns of other threads are arbitrary inputs.
* Times are microseconds; `struct timeval` is kept as a pair where the code works on the pair.

## Where the code differs from what one would expect

Each of these is stated by lemmas: inputs that show it, and the condition under which the expected
behaviour holds:

* After a run, the planned time is the first slot at least 100 ms ahead only under a condition on the
  window and the period boundary (`Schedule.NextAfterRunIff`, `Schedule.EarlyRunLeavesWindow`,
  `Schedule.RolloverInsideFudge`).
* An event that fires too early may move a planned run back to a slot that was already run
  (`ScheduleRun.EarlyAfterRunIff`, `ScheduleRun.EarlyFiringMovesBack`), and a slot may run twice when an
  event fires exactly 100 ms early or just before a period boundary (`ScheduleRun.RunsAgainIff`).
* The trie is the map of the last values added if and only if no two of those prefixes nest
  (`IpTrie.BuildIsMapIff`); prefixes that nest may be lost, in whichever order they were added
  (`IpTrie.NestedPrefixesLost`, `IpTrie.NestedPrefixesLostAt`).
* The number of records of a DNS response is computed before the byte order of its terms is put right, and
  is correct just when the octets do not overflow (`DnsPacket.ResponseCountRightIff`,
  `DnsPacket.ResponseCountWrong`).
* A DNS name with an empty label is sent only up to that label (`DnsName.RoundTrip`,
  `DnsName.EmptyLabelCuts`).
* An odd last octet is added as it is to the Internet checksum, which is the padding of RFC 1071 only on a
  little endian host (`Checksum.OddLengthPadding`, `Checksum.OddOctet`).
* The number of children of a node of the access control tree is kept in an octet. With the 256th child it
  wraps around and the rules of all of them are lost (`AclHeap.SiblingsLost`, `AclHeap.SiblingsLostAt`);
  with fewer, lookups find them (`AclHeap.CountedIsGet`).
* When the clock is set back between a packet and its reply, the latency wraps around as an unsigned number
  and spoils the mean. The mean is right if and only if that happens to no answered packet
  (`FastpingStats.MeanRightIff`, `FastpingStats.ClockSetBack`, `FastpingStats.JitterRightIff`).
* Numbers are sorted by the sign of their difference as an int, which is right if and only if it fits one
  (`FastpingStats.CmpRightIff`, `FastpingStats.CmpOverflows`).
* The echo of a priming packet is ignored without IP options, but accepted on a big endian host when there
  are eight octets of them (`FastpingPacket.PrimingRead`, `FastpingPacket.PrimingWord`,
  `FastpingPacket.PrimingCredited`).
* A compressed DNS name need not end. It ends if and only if following it for as many steps as the packet
  has octets finds its end (`DnsName.EndsIff`); pointers to themselves or in a circle do not
  (`DnsName.SelfPointerNeverEnds`, `DnsName.PointersInCircle`).
* A control message without content is sent if and only if its length goes out and the round after that
  asks for a retry (`ControlMsg.EmptyWriteIff`, `ControlMsg.EmptyReadIff`, `ControlMsg.EmptyMessages`); it
  may even arrive though its write failed (`ControlMsg.GivenUpArrives`).
* A reply to a ping whose IPv4 header has options is read at the wrong place. It is credited to its probe if
  and only if the octets there spell the number of the probe (`FastpingPacket.EchoCreditedIff`), and what
  they spell is written out for every length of options (`FastpingPacket.FourOptionOctets`,
  `FastpingPacket.EightOptionOctets`, `FastpingPacket.ManyOptionOctets`, `FastpingPacket.OptionsMisread`).
* The replies of the whois server are taken apart into their lines if and only if none is empty
  (`AsnStream.DrainIff`); an empty line can lose the lines after it, or leave strlen() without a string
  (`AsnStream.EmptyLineLoses`, `AsnStream.EmptyLineCrashes`).

## Model

| member | source | states |
|---|---|---|
| Calendar.PeriodHolds | src/measured/schedule.c:409-426 | The start that is computed for a period is the last of the equally spaced period boundaries not after the time, for hours, days and weeks that begin on Sunday |
| Calendar.PeriodsInOrder | src/measured/schedule.c:360-370 | Periods of one kind follow each other at exactly the distance of their length |
| Calendar.GmTimeUndone | src/measured/schedule.c:409-426 | Breaking a time down into its parts and putting it together again gives it back, with all parts in their ranges |
| Schedule.Configure | src/measured/schedule.c:1096-1132 | The numbers of a schedule are accepted just when each lies within its period, keep the values given, get the end of the period and a minute, ten minutes or an hour for those not given, and then satisfy what the scheduler relies on |
| Schedule.AddTvParts | src/measured/schedule.h:79-86 | Adding seconds and microseconds gives a normalised time value of the right total |
| Schedule.RollOver | src/measured/schedule.c:673-683 | Rolling over gives the normalised distance to the first slot of the next period |
| Schedule.GetNextScheduleTime | src/measured/schedule.c:586-711 | On split seconds and microseconds the code computes the offset of the slot arithmetic for every schedule, time and run flag; the result is positive and normalised, and the fallback for a missed period is never taken |
| Schedule.NextIsFirstSlot | src/measured/schedule.c:586-711 | Without a run to account for, the planned time is the least slot after now, over the slots of all periods |
| Schedule.NextIsAhead | src/measured/schedule.c:586-711 | The planned time always lies ahead |
| Schedule.NextAfterRunIff | src/measured/schedule.c:600-683 | After a run the planned time is the first slot at least 100 ms ahead if and only if a condition on the offsets, the frequency and the length of the period holds: the early branch stays in the window, a repeat is pushed far enough, and the rollover is not inside the 100 ms |
| Schedule.RunFlagIrrelevant | src/measured/schedule.c:600-683 | When no slot falls inside the 100 ms, the run flag changes nothing |
| Schedule.EarlyRunLeavesWindow | src/measured/schedule.c:619-628 | A schedule and a time for which the early branch plans a time that is no slot |
| Schedule.RolloverInsideFudge | src/measured/schedule.c:673-683 | A schedule and a time for which the rollover plans a run 10 ms ahead of one that just happened |
| ScheduleRun.TestItem.constructor | src/measured/schedule.c:1201-1209 | A new test is planned for its first slot |
| ScheduleRun.TestItem.ForkTest | src/measured/run.c:508-580 | A test runs just when its event is not more than 100 ms early and a process can be made |
| ScheduleRun.TestItem.RunScheduledTest | src/measured/run.c:587-618 | The item moves exactly as the step of the loop does, whatever the clock says when the test is to run and when the next run is planned, and is planned ahead of the clock |
| ScheduleRun.EarlyFiring | src/measured/run.c:508-618 | A firing that is too early runs nothing, plans the first slot after the second clock reading, and leaves the planned time alone if and only if no slot lies between |
| ScheduleRun.EarlyAfterRunIff | src/measured/run.c:508-618 | After a run, an early firing keeps the planned time if and only if the run came no less than 100 ms before a slot or that slot has passed |
| ScheduleRun.EarlyFiringMovesBack | src/measured/run.c:508-618 | A family of runs after which an early firing plans a slot that has already been run |
| ScheduleRun.RunsAgainIff | src/measured/run.c:508-618 | An event within the 100 ms before its slot runs the test, and plans the same slot again if and only if it was exactly 100 ms early or the slot is the first of the next period |
| ScheduleRun.NoSlotRunsTwice | src/measured/run.c:508-618 | Over every admissible run of the loop, however late its firings, the slots that were run strictly increase |
| ScheduleRun.NoSlotIsMissed | src/measured/run.c:508-618 | Over every punctual run the slots that were run are exactly all slots up to the planned one, in order |
| ParamString.SaveToken | src/measured/schedule.c:442-445 | The token is copied as a C string and the buffer is cleared |
| ParamString.ParseParamString | src/measured/schedule.c:467-576 | The loop over a token buffer and a table of results computes the scanner on values, for all input that fits them; `ParseIs` and `ParseInvertsWriting` say what that gives |
| ParamString.ParseInvertsWriting | src/measured/schedule.c:467-576 | Parsing gives back every non-empty list of words, whatever bare characters, escapes and quotes of either kind each is written with and whatever white space is around them; up to 127 words of up to 1024 characters fit the buffers |
| ParamString.ParseIs | src/measured/schedule.c:467-576 | For every input with a result, the words are the stretches between white space outside quotes and escapes, without quotes and escaping backslashes; a stretch without characters is none, except the last |
| ParamString.EmptyInput | src/measured/schedule.c:476-480 | Only the empty input has no words |
| ParamString.ParseFailsIff | src/measured/schedule.c:467-576 | There is no result if and only if the input ends inside quotes or after a lone backslash, as told by an independent reader of quotes |
| AddressBits.GetBitAtIndex | src/common/iptrie.c:58-91 | The bit at an index of an address in network order, or -1 outside it, on either host |
| AddressBits.GetMatchingPrefixLength | src/common/iptrie.c:99-149 | The number of leading bits two addresses share, with differing bits right after them, or -1 across families |
| AddressBits.CompareAddresses | src/common/testlib.c:725-790 | The comparison is zero if and only if the families are the same and the leading bits agree, for every length, through the mask loop and the block loop |
| AddressBits.AgreeIffCommonPrefix | src/common/testlib.c:725-790 | Agreement on a length is the same as a matching prefix of at least that length |
| IpTrie.AddUpdates | src/common/iptrie.c:158-256 | Adding a prefix that nests with none keeps the Patricia invariant and is exactly the update of the map of leaves |
| IpTrie.LookupFinds | src/common/iptrie.c:282-313 | Lookup returns the value of the stored prefix that the address begins with |
| IpTrie.LookupMisses | src/common/iptrie.c:282-313 | Lookup returns -1 for an address that begins with no stored prefix |
| IpTrie.BuildIsMap | src/common/iptrie.c:158-256 | After any history of additions that do not nest, the trie is the map of the last values |
| IpTrie.BuildIsMapIff | src/common/iptrie.c:158-256 | The trie is a Patricia trie with exactly the last values if and only if no two of the prefixes added nest |
| IpTrie.LookupIsLastAdded | src/common/iptrie.c:158-313 | After any such history lookup returns the last value added for the covering prefix, or -1 |
| IpTrie.UniformLookup | src/common/iptrie.c:158-313 | With one prefix length for all additions, the trie is a map from the leading bits of an address |
| IpTrie.NestedPrefixesLost | src/common/iptrie.c:158-313 | A family of pairs of nested prefixes, of any width, for which an address that only the shorter one covers is not found, in either order of addition |
| IpTrie.NestedPrefixesLostAt | src/common/iptrie.c:158-313 | A /24 and a /16 of 32-bit addresses after which an address of the /16 is not found |
| IpTrie.FindsLast | src/common/iptrie.c:264-331 | After any sequence of additions to both families that do not nest, an address finds the last value added for the prefix that covers it, or -1 |
| IpTrie.Canonical | src/common/iptrie.c:158-256 | Tries with the same leaves have the same shape and prefixes |
| IpTrie.SameMapSameTrie | src/common/iptrie.c:158-256 | Histories with the same final map build the same trie |
| IpTrie.NodesForPrefixes | src/common/iptrie.c:158-256 | A trie of n prefixes has 2n - 1 nodes |
| IpTrie.InOrderAscends | src/common/iptrie.c:366-385 | The walk over the leaves meets each stored prefix once, in strictly ascending order of bits |
| IpTrie.ListsEachOnce | src/common/iptrie.c:412-433 | The list holds each stored prefix once with its value, IPv6 before IPv4, each family strictly descending |
| IpTrieHeap.AddInternal | src/common/iptrie.c:158-256 | In place, on nodes of the heap, adding refines the addition to the trie and touches only nodes of the trie |
| IpTrieHeap.LookupInternal | src/common/iptrie.c:282-313 | Lookup on the nodes is lookup in the trie |
| IpTrieHeap.ToListInternal | src/common/iptrie.c:366-422 | Walking the leaves threads them in front of a list, and changes nothing but the threads |
| IpTrieHeap.IpTrieRoot.constructor | src/measured/asnsock.c:338-339 | New tries are empty |
| IpTrieHeap.IpTrieRoot.AddAddress | src/common/iptrie.c:264-275 | An address goes to the trie of its family, the other is untouched, and the nodes grow only by new ones |
| IpTrieHeap.IpTrieRoot.LookupAs | src/common/iptrie.c:321-331 | The lookup is that of the family of the address |
| IpTrieHeap.IpTrieRoot.Clear | src/common/iptrie.c:352-358 | Clearing leaves two empty tries |
| IpTrieHeap.IpTrieRoot.ToList | src/common/iptrie.c:429-433 | The threaded list holds exactly the listed prefixes and values and the addresses of their nodes, and both tries stay as they were |
| IpTrieHeap.AddAll | src/common/iptrie.c:264-275 | Any sequence of additions leaves, on the heap, the tries that the additions build on values |
| IpTrieHeap.LookupAfter | src/common/iptrie.c:264-331 | A lookup on the heap after any sequence of additions that do not nest gives the last value added for the covering prefix, or -1 |
| AsnCache.PutUpdates | src/common/asn.c:102-110 | Adding a /24 or a /64 keeps the tries uniform and is the update of one map over both families |
| AsnCache.FindsEntry | src/measured/asnsock.c:221-247 | Looking up an address gives the value stored for its /24 or /64, or -1 |
| AsnCache.EmptyEntries | src/measured/asnsock.c:204-214 | Cleared tries are the empty map |
| AsnCache.BuiltIsKnown | src/common/asn.c:102-110 | Tries built by any sequence of additions of /24 and /64 prefixes are the map of the last values |
| AsnCache.BuiltFinds | src/common/iptrie.c:321-331 | Looking an address up in them gives the last value added for its /24 or /64, or -1 |
| AsnRefresh.ClearsApart | src/measured/asnsock.c:204-214 | Over every sequence of checks, two of them that empty the cache lie more than a day apart |
| AsnRefresh.ClearedInTime | src/measured/asnsock.c:204-214 | A check 25 hours after the cache was emptied, or later, empties it again |
| AsnStream.SplitOnce | src/common/asn.c:277-312 | Splitting a stream into lines is splitting a first part, and then its unfinished line with the rest |
| AsnStream.PiecesIrrelevant | src/common/asn.c:277-345 | However a stream is cut into pieces, the same answers come out and the same unfinished line is left |
| AsnStream.RoomLeft | src/common/asn.c:319-345 | When the lines fit the buffer, there is always room to receive more |
| AsnStream.TokenIsLineIff | src/common/asn.c:284-290 | The token that is taken is the first line of the buffer if and only if that line is not empty |
| AsnStream.DrainIff | src/common/asn.c:277-312 | The loop takes exactly the lines out of the buffer and leaves the unfinished one if and only if no line is empty |
| AsnStream.EmptyLineCrashes | src/common/asn.c:284-306 | A buffer with nothing but a newline leaves the loop without a token to measure |
| AsnStream.EmptyLineLoses | src/common/asn.c:284-312 | A buffer whose first line is empty and whose third line is lost |
| AsnStream.ReplyBuffer.constructor | src/common/asn.c:329-331 | A new buffer holds nothing |
| AsnStream.ReplyBuffer.Receive | src/measured/asnsock.c:154-177 | Received octets go behind what is held, with room for the closing zero |
| AsnStream.ReplyBuffer.TakeToken | src/common/asn.c:289-290 | The token and the octet that is zeroed behind it, for every buffer with a token |
| AsnStream.ReplyBuffer.TakeLine | src/common/asn.c:284-306 | For every buffer with a token: the token comes out, and the octets move up by its length and one, wherever it stood |
| AsnStream.ReplyBuffer.ProcessBuffer | src/common/asn.c:277-312 | In place, for every content that does not leave strlen() without a string: what comes out and what stays is what the passes of the loop make of it, and outstanding drops by the number of answers; `DrainIff` says when those are the lines |
| AsnStream.FetchResultsDirect | src/common/asn.c:319-345 | The answers are those of the part of the stream that was read, whatever the sizes of the pieces, and all of it is read unless a receive fails |
| AsnWorker.ActDescends | src/measured/asnsock.c:363-450 | Every step keeps the accounts of outstanding requests and lowers a bound on the steps to come |
| AsnWorker.CanStep | src/measured/asnsock.c:363-450 | A thread can step if and only if it has not finished |
| AsnWorker.ActTruthful | src/measured/asnsock.c:204-247 | A step keeps the cache and the result within what the whois server knows |
| AsnWorker.ActCovers | src/measured/asnsock.c:363-450 | A step loses no requested prefix unless something failed, and asks for none twice |
| AsnWorker.CompleteResult | src/measured/asnsock.c:363-450 | A thread that finished without failure and with at most one answer to each request has exactly what the server knows of the requested prefixes |
| AsnWorker.NeverNegative | src/measured/asnsock.c:363-450 | With at most one answer to each request, outstanding requests are never negative |
| AsnWorker.ActTakesOne | src/measured/asnsock.c:363-450 | Whatever happens in a step, no more than the first address leaves the list |
| AsnWorker.ActServes | src/measured/asnsock.c:363-450 | A step misses no requested prefix that the cache keeps, but for one when the connection is given up |
| AsnWorker.AnswerIsShared | src/common/asn.c:102-110 | An answer is in the cache as in the result, and any thread that looks for its prefix finds it and makes no request |
| AsnSystem.AlwaysInv | src/measured/asnsock.c:336-471 | The invariant of cache and threads holds after every interleaving of steps of any number of threads |
| AsnSystem.OnlyTrueValues | src/measured/asnsock.c:204-247 | In every interleaving the cache and all results hold only what the server knows, outstanding requests have a live connection, and are the requests sent less the answers taken |
| AsnSystem.ExactResults | src/measured/asnsock.c:363-450 | In every interleaving a thread that finished without failure and with at most one answer to each request has exactly what the server knows of its list |
| AsnSystem.ResultsAreShared | src/common/asn.c:102-110 | In every interleaving in which the cache is not emptied, it loses nothing and has all that any thread has found |
| AsnSystem.RunsEnd | src/measured/asnsock.c:363-450 | Every run is finite, with a bound from the lists and replies, and cannot go on if and only if all threads have finished |
| AsnRequests.ListedOnce | src/common/iptrie.c:412-433 | The list made of a trie names every prefix in it, and none twice |
| AsnRequests.TodoIsListed | src/common/iptrie.c:412-433 | The addresses in the listed nodes are whole, and their prefixes are the prefixes in the trie |
| AsnRequests.RequestedOnce | src/measured/asnsock.c:255-364 | The list for any addresses that a test sends names the prefix of each of them, nothing else, and nothing twice |
| AsnRequests.AnswersAllAsked | src/measured/asnsock.c:336-471 | Whatever addresses the tests send and in every interleaving, a thread that finished without failure and with at most one answer to each request has exactly what the server knows of the prefixes of its addresses |
| AsnThread.AsnTries.LookupAs | src/common/iptrie.c:321-331 | A lookup in the tries is a lookup in the map they stand for |
| AsnThread.AsnTries.Add | src/common/asn.c:102-110 | An addition to the tries is the update of the map they stand for |
| AsnThread.SharedCache.CheckRefresh | src/measured/asnsock.c:204-214 | The cache is emptied just when it is due, and the deadline moves as in the sequences of checks of `AsnRefresh` |
| AsnThread.AsnThread.constructor | src/measured/asnsock.c:336-349 | A new thread is in the initial state of the machine |
| AsnThread.AsnThread.CheckAsnCache | src/measured/asnsock.c:221-247 | An address for which the tries of the cache have a number that is not negative as an int goes to the tries of the result with it; otherwise nothing changes |
| AsnThread.AsnThread.CheckWhoisConnection | src/measured/asnsock.c:184-197 | The connection is tried once, and without one the address is given up |
| AsnThread.AsnThread.Look | src/measured/asnsock.c:366-378 | The head of the loop is the step of the state machine |
| AsnThread.AsnThread.Answer | src/measured/asnsock.c:400-433 | What follows select() is the step of the state machine, with its failures |
| AsnThread.AsnThread.ReadAsnRequest | src/measured/asnsock.c:435-445 | Receiving, or giving up, is the step of the state machine |
| AsnThread.AsnThread.ProcessLine | src/common/asn.c:277-312 | Taking a line out of the buffer and adding it to the tries of result and cache is the step of the state machine |
| AsnThread.AsnThread.AddParsedLine | src/common/asn.c:67-111 | An answer goes to the tries of result and cache, and there is one request fewer outstanding |
| AsnThread.AsnThread.Run | src/measured/asnsock.c:336-471 | The loop over fields, buffer and tries comes to its end for every pattern of outcomes and whatever other threads do to the cache, in exactly the state that those determine |
| AsnTrace.LoopIsRight | src/measured/asnsock.c:336-471 | What the loop leaves is faithful to the server, and exact without failures and with at most one answer to each request |
| AsnTrace.Projects | src/measured/asnsock.c:336-471 | Each thread of an interleaving sees a course of events such as the loop of one thread is proved for |
| AsnLoop.OutcomeLeads | src/measured/asnsock.c:336-471 | The state in which the loop ends is reached by steps of the state machine, whatever the outside decides |
| AsnLoop.OutcomeIsRight | src/measured/asnsock.c:336-471 | If other threads put only true values into the cache, result and cache hold only what the server knows at the end, and unless the connection was given up and with at most one answer to each request the result is exactly that for the list |
| AsnLoop.CachedAreAnswered | src/measured/asnsock.c:363-450 | Whatever fails, all requested prefixes that the cache has from the start and keeps are in the result, but for one at most, and for none if the connection was not given up |
| AsnLoop.AloneFromCache | src/measured/asnsock.c:363-378 | Without a connection the result is exactly what the cache has for the requested prefixes |
| AsnLoop.LoopAlone | src/measured/asnsock.c:363-450 | From any point on at which the connection was given up, exactly what the cache has for the addresses left is added to the result |
| AsnSmooth.AllGoesWell | src/measured/asnsock.c:336-471 | If the connection is made, all requests go out and then each is answered once, in any order, among headers and error messages and in pieces of any size, the thread ends without a failure and its result is exactly what the server knows |
| AsnService.FillRequestTrie | src/measured/asnsock.c:255-333 | The trie of requests is built by the additions of the addresses that were sent |
| AsnService.ServiceIsRight | src/measured/asnsock.c:255-471 | The same from the addresses that a test sends: the result is exactly what the server knows of their prefixes |
| AsnService.WorkerThread | src/measured/asnsock.c:336-471 | The thread ends in exactly the state that the addresses, the replies, the cache and the outcomes determine; if what other threads do in those turns is true, its result and the cache hold only what the server knows, and unless the connection was given up and with at most one answer to each request the result is exactly that for the prefixes of the addresses |
| Acl.GetFinds | src/measured/acl.c:115-137 | Looking up a name ends on the permission of the first rule met along its labels |
| Acl.PassOnInherits | src/measured/acl.c:173-195 | Passing permissions on keeps every unset node at its parent's permission |
| Acl.PassOnRules | src/measured/acl.c:173-195 | Passing permissions on changes no rule |
| Acl.AddInherits | src/measured/acl.c:202-256 | Adding a rule keeps the invariant that every unset node carries its parent's permission |
| Acl.AddRules | src/measured/acl.c:202-256 | Adding a rule sets the value of its name and of no other |
| Acl.BuildHolds | src/measured/acl.c:202-292 | After any rules the tree holds the last value of each name, and that of "all" at its root |
| Acl.MostSpecificWins | src/measured/acl.c:115-292 | After any rules the answer for any name is that of its exact rule, else of the longest covering suffix, else of "all", else 0 |
| Acl.DecisionUnique | src/measured/acl.c:115-292 | There is one such answer |
| Acl.OnlyLastValuesMatter | src/measured/acl.c:202-292 | Answers depend only on the last value of each name |
| Acl.OrderIrrelevant | src/measured/acl.c:202-292 | Exchanging neighbouring rules of different names never changes an answer |
| Acl.PropertiesApart | src/measured/acl.c:263-292 | Each property has its own tree, built from its own rules |
| Acl.AcceptedIff | src/measured/acl.c:263-292 | A rule for one of the three properties is accepted, and any other refused without a trace |
| Acl.AccessDecision | src/measured/acl.c:144-165 | For each property the most specific of its own rules decides, and an unknown property is denied |
| AclHeap.GetLabel | src/measured/acl.c:54-68 | The last label of a name |
| AclHeap.GetInternal | src/measured/acl.c:115-137 | Looking up on nodes of the heap is looking up in the tree |
| AclHeap.UpdateSubtree | src/measured/acl.c:173-195 | Passing permissions on in place refines the same on the tree |
| AclHeap.AddInternal | src/measured/acl.c:202-256 | Adding in place refines adding to the tree, and touches only its nodes |
| AclHeap.AclRoot.constructor | src/measured/acl.c:99-108 | New trees of new nodes allow nothing |
| AclHeap.AclRoot.Add | src/measured/acl.c:263-292 | A rule goes to the tree of its property, an unknown property is refused, and the nodes grow only by new ones |
| AclHeap.AclRoot.Get | src/measured/acl.c:144-165 | The answer is that of the tree of the property |
| AclHeap.Load | src/measured/acl.c:99-292 | Any sequence of rules that leaves no node with more than 255 children leaves, on the heap, the trees that the rules build on values |
| AclHeap.Decide | src/measured/acl.c:99-292 | After any such sequence the answer on the heap is that of the most specific rule of its property, and 0 for an unknown property |
| AclHeap.NarrowBefore | src/measured/acl.c:202-292 | Trees only grow, so such a sequence has no such node on the way |
| AclHeap.FewRulesNarrow | src/measured/acl.c:202-292 | Fewer than 256 rules never make such a node |
| AclHeap.CountedIsGet | src/measured/acl.c:115-137 | With a counter of one octet, a lookup is that of the tree if no node has more than 255 children |
| AclHeap.SiblingsLost | src/measured/acl.c:115-256 | Rules for any different hosts without a domain: all are found, but none of them once they are 256 |
| AclHeap.SiblingsLostAt | src/measured/acl.c:115-256 | 256 hosts that are allowed, of which none is found to be |
| DnsName.LabelsUnique | src/tests/dns/dns.c:142-207 | A name that ends means one list of labels, however far it is followed |
| DnsName.PointerDenotes | src/tests/dns/dns.c:160-170 | The octets 0xc0 + p / 256 and p % 256 stand for the name at p, for every p below 16384 |
| DnsName.BackwardEnds | src/tests/dns/dns.c:142-207 | Names whose pointers lead before their own segment, as section 4.1.4 of RFC 1035 has it, always end, with the labels that section gives them |
| DnsName.SelfPointerNeverEnds | src/tests/dns/dns.c:142-207 | A pointer to itself never ends |
| DnsName.PointersInCircle | src/tests/dns/dns.c:142-207 | Two pointers to each other never end |
| DnsName.EndsIff | src/tests/dns/dns.c:142-207 | A name ends if and only if following it for as many steps as the packet has octets finds its end |
| DnsName.Decode | src/tests/dns/dns.c:142-207 | For every name that ends, decoding stores the labels joined by dots and returns the place after the part that stands in place, however many pointers were followed |
| DnsName.Encode | src/tests/dns/dns.c:216-244 | Encoding writes each part between dots behind its length, and a zero octet |
| DnsName.DenoteWire | src/tests/dns/dns.c:142-244 | Encoded labels are read back wherever they stand in a packet |
| DnsName.RoundTrip | src/tests/dns/dns.c:142-244 | Decoding what was encoded gives the text up to its first empty label, which is all of it if and only if there is no empty label or no text |
| DnsName.EmptyLabelCuts | src/tests/dns/dns.c:142-244 | The text "a..b" comes back as "a" |
| DnsPacket.ProcessOptRr | src/tests/dns/dns.c:252-278 | The loop that counts a 16-bit length down notes exactly the options that fill the record |
| DnsPacket.ResponseCountRightIff | src/tests/dns/dns.c:324-325 | The number of records that is computed is right if and only if the octets of the three counts do not overflow, on a little endian host, or the sum fits 16 bits |
| DnsPacket.ResponseCountWrong | src/tests/dns/dns.c:324-325 | Counts of 200 and 100 are taken for 44 records on a little endian host |
| DnsPacket.HeaderCodeIs | src/tests/dns/dns.c:324-340 | For every header laid out as in section 4.1.1 of RFC 1035, a packet is invalid if and only if QR is clear or it has not one question, and otherwise nothing is found if and only if its code is not zero or it has no records |
| DnsPacket.NoSuchName | src/tests/dns/dns.c:334-336 | An answer that the name does not exist, which has a record, is not found |
| DnsNotes.WhatIsNoted | src/tests/dns/dns.c:252-398 | Of any records, what is noted is whether one is an RRSIG record and the data of the last NSID option in any OPT record |
| DnsNotes.OptionsReadBack | src/tests/dns/dns.c:252-278 | Options that were written one after the other are read back |
| DnsPacket.ProcessRecord | src/tests/dns/dns.c:356-398 | A round of the walk takes in one record and moves behind it |
| DnsPacket.ProcessPacket | src/tests/dns/dns.c:289-409 | The walk classifies the response by its header, visits each record of the packet once and in order, and stops behind the last |
| DnsPacket.RecordsReadBack | src/tests/dns/dns.c:356-398 | Any number of records written one after the other, with names in any encoding that ends, are visited each once and in order |
| DnsPacket.PacketWalk | src/tests/dns/dns.c:289-409 | The walk over a written packet with one question visits its records and stops at its end |
| DnsQuery.QueryWalk | src/tests/dns/dns.c:289-554 | For all query options, the walk over the built query with its QR bit set reads the question that was asked, visits the OPT record and its options once, and stops exactly at the length of the query |
| DnsQuery.QueryAsks | src/tests/dns/dns.c:498-529 | The fields that a server reads in the query: identifier, no response, recursion as asked for, one question of the type and class asked for, and an additional record just when one is needed |
| DnsQuery.OptAsks | src/tests/dns/dns.c:531-550 | The fields that a server reads in the OPT record: payload size, the DNSSEC OK bit just when asked for, and an empty NSID option just when asked for |
| DnsQuery.NameUpToZero | src/tests/dns/dns.c:480-484 | The encoded name up to its first zero octet is the question with its end |
| DnsQuery.PutHeader | src/tests/dns/dns.c:498-519 | The header fields of the query |
| DnsQuery.PutQuestion | src/tests/dns/dns.c:521-529 | The question with its type and class |
| DnsQuery.PutOpt | src/tests/dns/dns.c:531-550 | The OPT record with payload size, DNSSEC flag and NSID option |
| DnsQuery.CreateDnsQuery | src/tests/dns/dns.c:470-554 | The buffer that is filled in place is the packet of the options, and the reported length is its length |
| Resolver.ResolveData.Handle | src/common/ampresolv.c:170-225 | What a callback does to the shared block under the lock |
| Resolver.AlwaysInv | src/common/ampresolv.c:170-249 | The invariant of block and callbacks holds after every interleaving |
| Resolver.SharedBlockIsSafe | src/common/ampresolv.c:170-249 | In every interleaving the block is freed at most once and never used afterwards, no more addresses are added than allowed, and all are genuine |
| Resolver.NoUseAfterFree | src/common/ampresolv.c:170-249 | In every interleaving, each step that uses the block comes before the block is freed |
| Resolver.OthersExclude | src/common/ampresolv.c:170-225 | While another name has the lock, no callback takes it |
| Resolver.FiveStepsEach | src/common/ampresolv.c:170-345 | In every interleaving, the steps taken and those left add up to five for each query |
| Resolver.AlwaysContributes | src/common/ampresolv.c:170-249 | In every interleaving the addresses that came from a query are first addresses of its own answer, in reverse order, and none before its callback has run |
| Resolver.AllFinished | src/common/ampresolv.c:170-249 | When all callbacks are done the block was freed exactly once; the list has as many addresses as there were up to the limit, and is made of one part from each query, the first addresses of its own answer in reverse order; or, if and only if no query succeeded, it has one placeholder for each family that was asked for and nothing else |
| Resolver.NoDeadlock | src/common/ampresolv.c:300-345 | As long as a callback is not done some step can be taken |
| ControlMsg.Bio.DoControlWrite | src/common/controlmsg.c:64-121 | The loop writes the bytes in order until all are out or the stream fails; without bytes, its one round decides |
| ControlMsg.Bio.DoControlRead | src/common/controlmsg.c:155-216 | The loop takes the bytes off the stream in order until it has all, the stream ends or fails; without bytes, its one round decides |
| ControlMsg.Bio.WriteControlPacket | src/common/controlmsg.c:129-148 | The length and then the content are written |
| ControlMsg.Bio.ReadControlPacket | src/common/controlmsg.c:223-261 | The length is read and checked, then the content |
| ControlMsg.ReadIsFrame | src/common/controlmsg.c:223-261 | However the stream is cut up, a message that is read is a frame at its start, and what is left is the rest |
| ControlMsg.FrameUnique | src/common/controlmsg.c:129-148 | A stream begins with at most one frame |
| ControlMsg.WriteIsFrame | src/common/controlmsg.c:129-148 | A write of any message puts exactly the frame on the stream, or fails with an unfinished part of it or, for an empty message, perhaps all of it |
| ControlMsg.EmptyWriteIff | src/common/controlmsg.c:64-148 | An empty message is sent if and only if its length goes out and the next round asks for a retry, and its frame is on the stream if and only if its length went out |
| ControlMsg.EmptyReadIff | src/common/controlmsg.c:155-261 | An empty message at the start of the stream is received if and only if its length is read and the next round neither times out nor fails |
| ControlMsg.EmptyMessages | src/common/controlmsg.c:64-261 | Rounds for which an empty message is sent, is not sent, and is received |
| ControlMsg.GivenUpArrives | src/common/controlmsg.c:64-261 | Rounds for which an empty message arrives whose write failed |
| ControlMsg.TooLargeBlocks | src/common/controlmsg.c:64-261 | However writes and reads are cut up, a message over the limit stops the reader: neither it nor any message after it is received |
| ControlMsg.NothingElseArrives | src/common/controlmsg.c:64-261 | However writes and reads are cut up and wherever they fail, the messages received are the first of those written, unchanged and in order, and at most an empty one that was given up after its length |
| ControlMsg.EverythingIsWritten | src/common/controlmsg.c:64-148 | Over a connection that keeps moving, in pieces of any size, every message is written and the stream is exactly their frames |
| ControlMsg.EverythingArrives | src/common/controlmsg.c:64-261 | Over a connection that keeps moving on both sides, in pieces of any size that need not be the same, every message that is written arrives |
| Checksum.ComputeChecksum | src/common/checksum.c:16-33 | Both loops end with the complement of the one's complement sum of the words, that is of the representative modulo 65535 |
| Checksum.StoredChecksumVerifies | src/tests/fastping/fastping.c:474-486 | A packet with its checksum stored in an aligned field that was zero has checksum 0 |
| Checksum.ByteOrderIndependent | src/common/checksum.c:16-33 | Swapping the octets of every word swaps the checksum, so hosts of either byte order store the same octets |
| Checksum.OddLengthPadding | src/common/checksum.c:16-33 | An odd last octet counts as if padded with zero if and only if the host is little endian or the octet is zero |
| Checksum.OddOctet | src/common/checksum.c:16-33 | A single octet on a big endian host, with and without padding |
| FastpingPacket.BuildPacket | src/tests/fastping/fastping.c:465-493 | The packet that is built in place is the probe of its numbers, with its checksum, and zeros behind |
| FastpingPacket.ProbeChecksOut | src/tests/fastping/fastping.c:484-487 | The checksum of an IPv4 probe checks out |
| FastpingPacket.ProbeFields | src/tests/fastping/fastping.c:465-493 | A probe has its size less the IP header, and is an echo request of its family with identifier, sequence number and number in their places and zeros behind |
| FastpingPacket.CreditedIff | src/tests/fastping/fastping.c:501-577 | Any packet is credited to a number if and only if it is long enough, is an echo reply of its family with our identifier from the destination, and the number where the payload is read is that one and ends in its sequence number |
| FastpingPacket.EchoRead | src/tests/fastping/fastping.c:501-577 | An echo with any IP options, of any length, is read as the number at the fixed place of the payload if and only if it comes from the destination, carries our identifier and that number ends in the sequence number; otherwise it is refused |
| FastpingPacket.EchoCreditedIff | src/tests/fastping/fastping.c:465-577 | The echo of the probe with any 63-bit number is credited to that number if and only if the octets at the fixed place spell it, and always without IP options |
| FastpingPacket.PrimingRead | src/tests/fastping/fastping.c:646-657 | The echo of a priming packet, with any options, is refused unless what is read ends in its sequence number, and always without options |
| FastpingPacket.PrimingWord | src/tests/fastping/fastping.c:501-657 | Exactly when it ends in that number without options and with four or eight octets of them, on both byte orders |
| FastpingPacket.PrimingCredited | src/tests/fastping/fastping.c:501-657 | With eight octets of options on a big endian host a priming echo is credited to a number made of its checksum and our identifier |
| FastpingPacket.OptionsMisread | src/tests/fastping/fastping.c:520-568 | With four or eight octets of options, on a host of either byte order, exactly which echoes of probes are accepted, and the number they are then credited to |
| FastpingPacket.FourOptionOctets | src/tests/fastping/fastping.c:520-568 | With four octets of options the number read is made of the identifier, the sequence number and half of the number sent |
| FastpingPacket.EightOptionOctets | src/tests/fastping/fastping.c:520-568 | With eight octets of options it is made of the checksum, the identifier and the sequence number |
| FastpingPacket.ManyOptionOctets | src/tests/fastping/fastping.c:520-568 | With more options it is made of the options themselves |
| FastpingStream.FilledOneMore | src/tests/fastping/fastping.c:770-774 | Filling an empty slot raises the number of filled slots by one |
| FastpingStream.EchoNumber | src/tests/fastping/fastping.c:501-577 | What arrives as the echo of the probe with a number is read as that number |
| FastpingStream.EchoFills | src/tests/fastping/fastping.c:672-793 | Over a whole run, every echo of a packet that is read after the packet was sent leaves its slot filled |
| FastpingStream.FilledIff | src/tests/fastping/fastping.c:672-793 | Over a whole run, a slot is filled if and only if some packet that was read carries its number after it was sent |
| FastpingStream.FirstFills | src/tests/fastping/fastping.c:672-793 | A filled slot holds the time of the first such packet |
| FastpingStream.CourseGood | src/tests/fastping/fastping.c:672-793 | In every run the received count is the number of filled slots, at most the sent count, only slots of sent packets are filled, and the stop time is set only when all are sent |
| FastpingStream.HowRunsEnd | src/tests/fastping/fastping.c:672-793 | However a run ends without a failure of select(), the stop time is set if and only if there was a packet to send; all slots are filled when it ends for having received all, and all packets are sent when it ends for waiting too long |
| FastpingStream.SendsIff | src/tests/fastping/fastping.c:715-725 | A turn sends the next packet if and only if the loop goes on, the packet is due by the gaps since the start, and the socket takes it |
| FastpingStream.SendTimeKept | src/tests/fastping/fastping.c:715-725 | Over a whole run, the slot of a packet keeps the time at which it went out |
| FastpingStream.ReportedLatency | src/tests/fastping/fastping.c:208-221 | The latency that is reported for a packet is the time of the first packet read that names it less the time at which it went out, behind those of the packets answered before it |
| FastpingStream.TimesOutIff | src/tests/fastping/fastping.c:732-748 | A run ends for waiting too long just in a turn three seconds or more after the stop time |
| FastpingStream.StopTimeIs | src/tests/fastping/fastping.c:732-741 | The stop time is that of the turn in which the last packet was sent |
| FastpingStream.IcmpStream.Prepare | src/tests/fastping/fastping.c:465-493 | The packet buffer holds the probe of the next number |
| FastpingStream.IcmpStream.Transmit | src/tests/fastping/fastping.c:715-725 | What goes out is the probe of its number |
| FastpingStream.IcmpStream.constructor | src/tests/fastping/fastping.c:605-670 | A new stream has sent and received nothing |
| FastpingStream.IcmpStream.Send | src/tests/fastping/fastping.c:715-725 | A packet is counted as sent, its time is kept in its own slot, the next is due one gap later, and every packet on the wire is the probe of its number |
| FastpingStream.IcmpStream.CheckStop | src/tests/fastping/fastping.c:732-748 | The stop time is set once, when all packets are sent, and the wait is over three seconds after it |
| FastpingStream.IcmpStream.Receive | src/tests/fastping/fastping.c:766-787 | A reply is counted and its time kept if and only if it names a packet that was sent and not yet answered |
| FastpingStream.IcmpStream.Iterate | src/tests/fastping/fastping.c:672-789 | An iteration on fields and arrays is the step on values: it sends the next packet if and only if it is due and the socket takes it, and reads and stops as its turn demands |
| FastpingStream.IcmpStream.Run | src/tests/fastping/fastping.c:672-793 | Over any sequence of turns the loop ends in the state to which they lead, takes turns until it ends or there are no more, and no turn after its end; the packets that went out are the probes of their numbers |
| FastpingStats.UpdateDescribes | src/tests/fastping/fastping.c:216-230 | A round of the one-pass updates keeps mean times n equal to the sum, and the squares equal to the sum of squared deviations from the current mean |
| FastpingStats.Telescopes | src/tests/fastping/fastping.c:223-232 | The differences between neighbours add up to the last latency less the first |
| FastpingStats.ReportPercentiles | src/tests/fastping/fastping.c:157-167 | The percentiles are the values at their places in the sorted list, and never decrease |
| FastpingStats.PercentileRank | src/tests/fastping/fastping.c:157-167 | More than its part of the values are at most a percentile, or all are, and no more than its part are at most anything below it |
| FastpingStats.ReportDestination | src/tests/fastping/fastping.c:179-260 | For every timing array the mean and the squares are those of the latencies as unsigned 64-bit numbers, and of their differences; the extremes and percentiles are those of the latencies and differences as ints, from the minimum up to the maximum, if all differences between them fit an int |
| FastpingStats.MeanRightIff | src/tests/fastping/fastping.c:208-221 | The reported mean is that of the latencies if and only if no reply came before its packet was sent, and then so is all else that is computed from them |
| FastpingStats.ClockSetBack | src/tests/fastping/fastping.c:208-221 | A latency of -1 ms, which is counted as 18446744073709550616 microseconds |
| FastpingStats.JitterRightIff | src/tests/fastping/fastping.c:223-232 | The mean difference is right if and only if both or none of the first and the last latency are negative |
| FastpingStats.ReportedAsIs | src/tests/fastping/fastping.c:179-260 | Latencies below 2^30 microseconds and their differences are kept and sorted as they are |
| FastpingStats.CmpRightIff | src/tests/fastping/fastping.c:124-126 | The comparison for sorting is right if and only if the difference fits an int |
| FastpingStats.CmpOverflows | src/tests/fastping/fastping.c:124-126 | Two numbers that are compared the wrong way |
| FastpingStats.SortAscends | src/tests/fastping/fastping.c:235-250 | Sorting with that comparison gives ascending order if all differences fit an int |
| FastpingStats.JitterMean | src/tests/fastping/fastping.c:223-232 | The mean difference times its number is the last latency less the first |

## Left out

- AddressBits.CompareAddresses: does not state the sign of a result other than zero, because for partial prefixes it follows the byte order of the host, and no caller uses it.
- AclHeap.AclRoot.Add: assumes that no node comes to have more than 255 children, as do `Load` and `Decide`, because their number is kept in an octet; `SiblingsLost` shows what the 256th does.
- AsnStream.ReplyBuffer.ProcessBuffer: assumes a content for which strlen() is always given a string, because the code does not check it.
- AsnStream.FetchResultsDirect: assumes streams without empty lines and without zero octets, because what others leave depends on the sizes of the pieces.
- AsnThread.AsnThread.Run: assumes replies without empty lines and without zero octets whose answers name addresses, because the code does not check them; its tries are values that its fields hold, where `IpTrieHeap` has them on the heap.
- AsnService.WorkerThread: starts from addresses that were all read, because a failed read only ends the thread.
- DnsName.Encode: assumes text of at most 253 octets, because the buffer for encoded names has 255.
- DnsPacket.ProcessPacket: assumes that the records promised by the header end inside the packet and that names fit their buffer, because the code does not check it; the matching of a response to its query and the accounting of outstanding queries are not modelled.
- FastpingStats.ReportDestination: computes over the reals, and leaves out the square root of the standard deviation and the rounding of the reported mean; where comparisons overflow, the order that qsort() makes is one of many.
- FastpingStats.ReportPercentiles: computes the places in exact arithmetic, where the source computes them in floating point and may differ by one place.
- Schedule.GetNextScheduleTime: does not model the overflow of 64-bit times.
- The comparison and merging of scheduled tests, and the lists of targets.
- The end of the resolver thread, numeric names, and the order of addresses of different names.
- Reading the addresses to look up from the local socket, and sending the results back over it.
- The kernel filter of fastping, the sleeping between packets, and the packing of reports.
- Keyword tables for DSCP values, ICMP codes and DNS types; opinion scores; printing.
- Configuration files, certificates, users, messaging, process handling, and the Windows ports.
