/** What the walk over a response notes of its records, told by the records alone. */
module DnsNotes {
  import opened Options
  import opened Bytes
  import opened DnsPacket

  function WriteOptions(os: seq<EdnsOption>): seq<Byte>
    requires AllOptionsValid(os)
  {
    if os == [] then []
    else Be16(os[0].code) + Be16(|os[0].data|) + os[0].data + WriteOptions(os[1..])
  }

  predicate AllOptionsValid(os: seq<EdnsOption>) {
    forall i :: 0 <= i < |os| ==> os[i].code < 65536 && |os[i].data| < 65536
  }

  /** Options that were written one after the other are read back. */
  lemma {:induction false} OptionsReadBack(os: seq<EdnsOption>)
    requires AllOptionsValid(os)
    ensures OptionsFill(WriteOptions(os)) && OptionList(WriteOptions(os)) == os
    decreases |os|
  {
    if os != [] {
      var o, rest := os[0], WriteOptions(os[1..]);
      OptionsReadBack(os[1..]);
      OptionParts(o, rest);
      assert os == [o] + os[1..];
    }
  }

  lemma OptionParts(o: EdnsOption, rest: seq<Byte>)
    requires o.code < 65536 && |o.data| < 65536
    ensures var data := Be16(o.code) + Be16(|o.data|) + o.data + rest;
            var end := 4 + |o.data|;
            && |data| >= end && At16(data, 0) == o.code && At16(data, 2) == |o.data|
            && data[4..end] == o.data && data[end..] == rest
  {
    var data := Be16(o.code) + Be16(|o.data|) + o.data + rest;
    assert data[..4] == Be16(o.code) + Be16(|o.data|);
    assert data[0] == data[..4][0] && data[1] == data[..4][1] && data[2] == data[..4][2] && data[3] == data[..4][3];
  }

  /** The options of the OPT records, in order. */
  function AllOptions(rs: seq<Record>): seq<EdnsOption>
    requires forall i :: 0 <= i < |rs| ==> Sound(rs[i])
  {
    if rs == [] then []
    else
      assert Sound(rs[0]);
      (if rs[0].rtype == 41 && |rs[0].rdata| >= 4 then OptionList(rs[0].rdata) else []) + AllOptions(rs[1..])
  }

  /** The data of the last option with code 3. */
  function LastNsid(os: seq<EdnsOption>): Option<seq<Byte>> {
    if os == [] then None
    else if os[|os| - 1].code == 3 then Some(os[|os| - 1].data)
    else LastNsid(os[..|os| - 1])
  }

  function OrElse<T>(a: Option<T>, b: Option<T>): Option<T> {
    if a.Some? then a else b
  }

  lemma {:induction false} LastNsidConcat(a: seq<EdnsOption>, b: seq<EdnsOption>)
    ensures LastNsid(a + b) == OrElse(LastNsid(b), LastNsid(a))
    decreases |b|
  {
    if b == [] {
      assert a + b == a;
    } else {
      assert (a + b)[..|a + b| - 1] == a + b[..|b| - 1];
      LastNsidConcat(a, b[..|b| - 1]);
    }
  }

  lemma {:induction false} OptionsNoted(info: Info, os: seq<EdnsOption>)
    ensures NoteOptions(info, os) == info.(nsid := OrElse(LastNsid(os), info.nsid))
    decreases |os|
  {
    if os != [] {
      OptionsNoted(NoteOption(info, os[0]), os[1..]);
      LastNsidConcat([os[0]], os[1..]);
      assert os == [os[0]] + os[1..];
      assert [os[0]][..0] == [];
    }
  }

  /** Of any records, what is noted is whether one of them is a signature, and the last name server
      identifier in any of them. */
  lemma {:induction false} WhatIsNoted(info: Info, rs: seq<Record>)
    requires forall i :: 0 <= i < |rs| ==> Sound(rs[i])
    ensures NoteAll(info, rs).rrsig <==> info.rrsig || exists i :: 0 <= i < |rs| && rs[i].rtype == 46
    ensures NoteAll(info, rs).nsid == OrElse(LastNsid(AllOptions(rs)), info.nsid)
    decreases |rs|
  {
    if rs != [] {
      var r, rest := rs[0], rs[1..];
      WhatIsNoted(Note(info, r), rest);
      assert forall i :: 0 <= i < |rest| ==> rest[i] == rs[i + 1];
      var mine := if r.rtype == 41 && |r.rdata| >= 4 then OptionList(r.rdata) else [];
      OptionsNoted(info, mine);
      LastNsidConcat(mine, AllOptions(rest));
      assert (exists i :: 0 <= i < |rs| && rs[i].rtype == 46) <==>
             r.rtype == 46 || exists i :: 0 <= i < |rest| && rest[i].rtype == 46 by {
        if i :| 0 <= i < |rs| && rs[i].rtype == 46 && r.rtype != 46 {
          assert rest[i - 1].rtype == 46;
        }
      }
    }
  }
}
