/**
 The splitter of test arguments: a state machine that cuts a string at white space, with quotes and
 escapes.
 */
module ParamString {
  import opened Options
  import opened Seqs

  const MAX_TEST_ARGS := 128
  const MAX_ARGUMENT_LENGTH := 1024

  datatype State = Whitespace | DoubleQuote | SingleQuote | Character

  /** What is left of the input, the state, the token being built and the tokens saved. */
  datatype Config = Config(rest: string, state: State, token: string, args: seq<string>)

  predicate IsSpace(c: char) {
    c == '\n' || c == ' ' || c == '\t'
  }

  predicate InQuotes(s: State) {
    s == DoubleQuote || s == SingleQuote
  }

  /** One round of the loop; there is none when an escape ends the input. */
  function Step(c: Config): (r: Option<Config>)
    requires c.rest != ""
    ensures r.Some? ==> |r.value.rest| < |c.rest|
    ensures r.None? <==> c.rest == "\\"
  {
    var p, next := c.rest[0], c.rest[1..];
    if InQuotes(c.state) && p == Closing(c.state) then
      Some(c.(rest := next, state := Character))
    else if p == '\\' then
      if next == "" then None
      else Some(c.(rest := next[1..], token := c.token + [next[0]],
                   state := if InQuotes(c.state) then c.state else Character))
    else if InQuotes(c.state) then Some(c.(rest := next, token := c.token + [p]))
    else if p == '"' then Some(c.(rest := next, state := DoubleQuote))
    else if p == '\'' then Some(c.(rest := next, state := SingleQuote))
    else if IsSpace(p) then
      if c.state == Whitespace then Some(c.(rest := next))
      else Some(Config(next, Whitespace, "", c.args + [c.token]))
    else Some(c.(rest := next, token := c.token + [p], state := Character))
  }

  /** The result of the loop from a configuration on. */
  function Scan(c: Config): Option<seq<string>>
    decreases |c.rest|
  {
    if c.rest == "" then
      if InQuotes(c.state) then None else Some(c.args + [c.token])
    else
      match Step(c)
      case None => None
      case Some(next) => Scan(next)
  }

  function Start(s: string): Config {
    Config(s, Whitespace, "", [])
  }

  /** parse_param_string(); None is its NULL. */
  function Parse(s: string): Option<seq<string>> {
    if s == "" then Some([]) else Scan(Start(s))
  }

  /** The buffers of the source are long enough for the rest of the input. */
  predicate Room(c: Config)
    decreases |c.rest|
  {
    && |c.token| <= MAX_ARGUMENT_LENGTH
    && |c.args| < MAX_TEST_ARGS - 1
    && (c.rest != "" && Step(c).Some? ==> Room(Step(c).value))
  }

  // ---------------------------------------------------------------- the loop of the source

  /** The C string at the start of a buffer. */
  ghost function CString(s: string): string {
    if s == "" || s[0] == '\0' then "" else [s[0]] + CString(s[1..])
  }

  lemma {:induction false} CStringOf(s: string, n: nat)
    requires n < |s| && s[n] == '\0' && forall i :: 0 <= i < n ==> s[i] != '\0'
    ensures CString(s) == s[..n]
  {
    if n > 0 {
      CStringOf(s[1..], n - 1);
      assert s[..n] == [s[0]] + s[1..][..n - 1];
    }
  }

  /** save_token(): strdup() and memset(). */
  method SaveToken(token: array<char>) returns (copy: string)
    requires token.Length == MAX_ARGUMENT_LENGTH + 1 && token[MAX_ARGUMENT_LENGTH] == '\0'
    modifies token
    ensures copy == CString(old(token[..]))
    ensures forall i :: 0 <= i < token.Length ==> token[i] == '\0'
  {
    var n := 0;
    while token[n] != '\0'
      invariant 0 <= n <= MAX_ARGUMENT_LENGTH
      invariant forall i :: 0 <= i < n ==> token[i] != '\0'
      decreases MAX_ARGUMENT_LENGTH - n
    {
      n := n + 1;
    }
    copy := token[..n];
    CStringOf(token[..], n);
    assert token[..][..n] == token[..n];
    for k := 0 to MAX_ARGUMENT_LENGTH
      invariant forall i :: 0 <= i < k ==> token[i] == '\0'
      invariant token[MAX_ARGUMENT_LENGTH] == '\0'
    {
      token[k] := '\0';
    }
  }

  /** The buffer holds the token and zeroes. */
  ghost predicate Buffered(token: array<char>, offset: int, t: string)
    reads token
  {
    && token.Length == MAX_ARGUMENT_LENGTH + 1
    && 0 <= offset == |t| <= MAX_ARGUMENT_LENGTH
    && (forall i :: 0 <= i < offset ==> token[i] == t[i] != '\0')
    && (forall i :: offset <= i < token.Length ==> token[i] == '\0')
  }

  method Put(token: array<char>, offset: nat, p: char, ghost t: string)
    requires Buffered(token, offset, t) && offset < MAX_ARGUMENT_LENGTH && p != '\0'
    modifies token
    ensures Buffered(token, offset + 1, t + [p])
  {
    token[offset] := p;
  }

  method Save(token: array<char>, offset: nat, ghost t: string) returns (copy: string)
    requires Buffered(token, offset, t)
    modifies token
    ensures Buffered(token, 0, "") && copy == t
  {
    CStringOf(token[..], offset);
    assert token[..][..offset] == t;
    copy := SaveToken(token);
  }

  /** The loop of parse_param_string(), over a buffer for the token and a table of results. */
  method ParseParamString(s: string) returns (r: Option<seq<string>>)
    requires Room(Start(s)) && '\0' !in s
    ensures r == Parse(s)
  {
    if s == "" {
      return Some([]);
    }
    var token := new char[MAX_ARGUMENT_LENGTH + 1](_ => '\0');
    var result := new string[MAX_TEST_ARGS](_ => "");
    var state, offset, count, p := Whitespace, 0, 0, 0;
    ghost var c := Start(s);
    while p < |s|
      invariant 0 <= p <= |s| && c.rest == s[p..] && c.state == state
      invariant Buffered(token, offset, c.token)
      invariant 0 <= count == |c.args| && Room(c) && result[..count] == c.args
      invariant Scan(c) == Scan(Start(s))
    {
      assert c.rest[0] == s[p] && c.rest[1..] == s[p + 1..];
      if s[p] == '\\' && p + 1 == |s| {
        return None;
      }
      var save;
      p, state, offset, save := Consume(s, p, state, offset, token, c);
      if save.Some? {
        result[count] := save.value;
        count := count + 1;
      }
      c := Step(c).value;
    }
    if InQuotes(state) {
      return None;
    }
    var copy := Save(token, offset, c.token);
    result[count] := copy;
    assert result[..count + 1] == c.args + [c.token];
    r := Some(result[..count + 1]);
  }

  function Closing(s: State): char {
    if s == DoubleQuote then '"' else '\''
  }

  /** The switch over the states, for a character that is no lone backslash: where to read on, the new
      state and offset, and a token that is complete. */
  method Consume(s: string, start: nat, before: State, at: nat, token: array<char>, ghost c: Config)
    returns (p: nat, state: State, offset: nat, save: Option<string>)
    requires start < |s| && '\0' !in s && c.rest == s[start..] && c.state == before
    requires Step(c).Some? && Room(c) && Buffered(token, at, c.token)
    modifies token
    ensures start < p <= |s|
    ensures var c' := Step(c).value;
            && c'.rest == s[p..] && c'.state == state && Buffered(token, offset, c'.token)
            && c'.args == c.args + (match save case Some(w) => [w] case None => [])
  {
    p, state, offset, save := start, before, at, None;
    var ch := s[p];
    assert c.rest[0] == ch && c.rest[1..] == s[p + 1..];
    match state {
      case Whitespace =>
        if ch == '\\' {
          p := p + 1;
          Put(token, offset, s[p], c.token);
          offset, state := offset + 1, Character;
        } else if IsSpace(ch) {
        } else if ch == '"' {
          state := DoubleQuote;
        } else if ch == '\'' {
          state := SingleQuote;
        } else {
          Put(token, offset, ch, c.token);
          offset, state := offset + 1, Character;
        }
      case Character =>
        if ch == '\\' {
          p := p + 1;
          Put(token, offset, s[p], c.token);
          offset := offset + 1;
        } else if ch == '"' {
          state := DoubleQuote;
        } else if ch == '\'' {
          state := SingleQuote;
        } else if IsSpace(ch) {
          var copy := Save(token, offset, c.token);
          save, offset, state := Some(copy), 0, Whitespace;
        } else {
          Put(token, offset, ch, c.token);
          offset := offset + 1;
        }
      case _ =>
        if ch == Closing(state) {
          state := Character;
        } else {
          if ch == '\\' {
            p := p + 1;
          }
          Put(token, offset, s[p], c.token);
          offset := offset + 1;
        }
    }
    p := p + 1;
  }

  // ---------------------------------------------------------------- writing is undone

  /** A part of a word as it may be written: a character that means itself, any character behind a
      backslash, or text in quotes of either kind, with a backslash before the quote and backslashes. */
  datatype Part = Plain(c: char) | Escaped(c: char) | Quoted(quote: char, text: string) {
    predicate Valid() {
      match this
      case Plain(c) => !IsSpace(c) && c != '"' && c != '\'' && c != '\\'
      case Escaped(_) => true
      case Quoted(quote, _) => quote == '"' || quote == '\''
    }

    function Written(): string {
      match this
      case Plain(c) => [c]
      case Escaped(c) => ['\\', c]
      case Quoted(quote, text) => [quote] + Escape(quote, text) + [quote]
    }

    function Meaning(): string {
      match this
      case Plain(c) => [c]
      case Escaped(c) => [c]
      case Quoted(_, text) => text
    }
  }

  type Word = seq<Part>

  function Escape(quote: char, w: string): string {
    if w == "" then ""
    else (if w[0] == quote || w[0] == '\\' then ['\\', w[0]] else [w[0]]) + Escape(quote, w[1..])
  }

  function Written(w: Word): string {
    if w == [] then "" else w[0].Written() + Written(w[1..])
  }

  function Meaning(w: Word): string {
    if w == [] then "" else w[0].Meaning() + Meaning(w[1..])
  }

  function Meanings(ws: seq<Word>): (r: seq<string>)
    ensures |r| == |ws| && forall i :: 0 <= i < |ws| ==> r[i] == Meaning(ws[i])
  {
    seq(|ws|, i requires 0 <= i < |ws| => Meaning(ws[i]))
  }

  /** The words, with white space before each. */
  function Line(gaps: seq<string>, ws: seq<Word>): string
    requires |gaps| == |ws|
  {
    if ws == [] then "" else gaps[0] + (Written(ws[0]) + Line(gaps[1..], ws[1..]))
  }

  predicate ValidWord(w: Word) {
    w != [] && forall i :: 0 <= i < |w| ==> w[i].Valid()
  }

  predicate Blank(gap: string) {
    forall i :: 0 <= i < |gap| ==> IsSpace(gap[i])
  }

  /** Words have parts, and there is white space between them. */
  predicate ValidLine(gaps: seq<string>, ws: seq<Word>) {
    && |gaps| == |ws|
    && (forall i :: 0 <= i < |ws| ==> ValidWord(ws[i]) && Blank(gaps[i]))
    && (forall i :: 0 < i < |ws| ==> gaps[i] != "")
  }

  /** Scanning goes on from one configuration to another. */
  ghost predicate Onward(c: Config, c': Config) {
    Scan(c) == Scan(c') && (Room(c') ==> Room(c))
  }

  lemma StepOnward(c: Config, c': Config)
    requires c.rest != "" && Step(c) == Some(c') && |c.token| <= |c'.token| && c.args == c'.args
    ensures Onward(c, c')
  {
  }

  /** Scanning escaped text and its end quote appends the text. */
  lemma {:induction false} ScanEscaped(s: State, w: string, rest: string, token: string, args: seq<string>)
    requires InQuotes(s)
    ensures Onward(Config(Escape(Closing(s), w) + [Closing(s)] + rest, s, token, args),
                   Config(rest, Character, token + w, args))
    decreases |w|
  {
    var q := Closing(s);
    var c := Config(Escape(q, w) + [q] + rest, s, token, args);
    if w == "" {
      assert c.rest == [q] + rest && token + w == token;
      Cons(q, rest);
      StepOnward(c, Config(rest, Character, token, args));
    } else {
      EscapedStep(s, w, rest, token, args);
      ScanEscaped(s, w[1..], rest, token + [w[0]], args);
      assert token + [w[0]] + w[1..] == token + w;
      StepOnward(c, Config(Escape(q, w[1..]) + [q] + rest, s, token + [w[0]], args));
    }
  }

  lemma EscapedStep(s: State, w: string, rest: string, token: string, args: seq<string>)
    requires w != "" && InQuotes(s)
    ensures var q := Closing(s);
            && Escape(q, w) + [q] + rest != ""
            && Step(Config(Escape(q, w) + [q] + rest, s, token, args)) ==
               Some(Config(Escape(q, w[1..]) + [q] + rest, s, token + [w[0]], args))
  {
    var q := Closing(s);
    var tail := Escape(q, w[1..]) + [q] + rest;
    if w[0] == q || w[0] == '\\' {
      Assoc4(['\\', w[0]], Escape(q, w[1..]), [q], rest);
      Drop2('\\', w[0], tail);
    } else {
      Assoc4([w[0]], Escape(q, w[1..]), [q], rest);
      Cons(w[0], tail);
    }
  }

  lemma Drop2(x: char, y: char, s: string)
    ensures ([x, y] + s)[0] == x && ([x, y] + s)[1..] == [y] + s
    ensures ([x, y] + s)[1..][0] == y && ([x, y] + s)[1..][1..] == s
  {
  }

  /** A part is taken in, at the start of a word or inside it. */
  lemma ScanPart(p: Part, s: State, rest: string, token: string, args: seq<string>)
    requires p.Valid() && !InQuotes(s)
    ensures Onward(Config(p.Written() + rest, s, token, args), Config(rest, Character, token + p.Meaning(), args))
  {
    var c := Config(p.Written() + rest, s, token, args);
    match p
    case Plain(x) =>
      Cons(x, rest);
      StepOnward(c, Config(rest, Character, token + [x], args));
    case Escaped(x) =>
      Drop2('\\', x, rest);
      StepOnward(c, Config(rest, Character, token + [x], args));
    case Quoted(q, text) => ScanQuoted(q, text, s, rest, token, args);
  }

  lemma ScanQuoted(q: char, text: string, s: State, rest: string, token: string, args: seq<string>)
    requires (q == '"' || q == '\'') && !InQuotes(s)
    ensures Onward(Config([q] + Escape(q, text) + [q] + rest, s, token, args),
                   Config(rest, Character, token + text, args))
  {
    var inside := if q == '"' then DoubleQuote else SingleQuote;
    var c := Config([q] + Escape(q, text) + [q] + rest, s, token, args);
    Assoc4([q], Escape(q, text), [q], rest);
    Cons(q, Escape(q, text) + [q] + rest);
    StepOnward(c, Config(Escape(q, text) + [q] + rest, inside, token, args));
    ScanEscaped(inside, text, rest, token, args);
  }

  lemma {:induction false} ScanWord(w: Word, s: State, rest: string, token: string, args: seq<string>)
    requires ValidWord(w) && !InQuotes(s)
    ensures Onward(Config(Written(w) + rest, s, token, args), Config(rest, Character, token + Meaning(w), args))
    decreases |w|
  {
    var p, more := w[0], w[1..];
    Assoc(p.Written(), Written(more), rest);
    ScanPart(p, s, Written(more) + rest, token, args);
    Assoc(token, p.Meaning(), Meaning(more));
    if more == [] {
      assert Written(more) + rest == rest && Meaning(w) == p.Meaning() + "" == p.Meaning();
    } else {
      ScanWord(more, Character, rest, token + p.Meaning(), args);
    }
  }

  /** White space before a word is passed over. */
  lemma {:induction false} ScanBlank(gap: string, rest: string, args: seq<string>)
    requires Blank(gap)
    ensures Onward(Config(gap + rest, Whitespace, "", args), Config(rest, Whitespace, "", args))
    decreases |gap|
  {
    if gap == "" {
      assert gap + rest == rest;
    } else {
      Cons(gap[0], gap[1..] + rest);
      Assoc([gap[0]], gap[1..], rest);
      assert gap == [gap[0]] + gap[1..];
      StepOnward(Config(gap + rest, Whitespace, "", args), Config(gap[1..] + rest, Whitespace, "", args));
      ScanBlank(gap[1..], rest, args);
    }
  }

  /** White space after a word saves it. */
  lemma ScanGap(gap: string, rest: string, w: string, args: seq<string>)
    requires Blank(gap) && gap != ""
    ensures var c, c' := Config(gap + rest, Character, w, args), Config(rest, Whitespace, "", args + [w]);
            Scan(c) == Scan(c') && (|w| <= MAX_ARGUMENT_LENGTH && Room(c') ==> Room(c))
  {
    Cons(gap[0], gap[1..] + rest);
    Assoc([gap[0]], gap[1..], rest);
    assert gap == [gap[0]] + gap[1..];
    var c := Config(gap + rest, Character, w, args);
    assert Step(c) == Some(Config(gap[1..] + rest, Whitespace, "", args + [w]));
    ScanBlank(gap[1..], rest, args + [w]);
    RoomShorter(Config(rest, Whitespace, "", args + [w]));
  }

  lemma RoomShorter(c: Config)
    ensures Room(c) ==> |c.token| <= MAX_ARGUMENT_LENGTH && |c.args| < MAX_TEST_ARGS - 1
  {
  }

  predicate Fits(ws: seq<Word>) {
    forall i :: 0 <= i < |ws| ==> |Meaning(ws[i])| <= MAX_ARGUMENT_LENGTH
  }

  /** White space and a word behind another. */
  lemma ScanNext(gap: string, next: Word, rest: string, w: string, args: seq<string>)
    requires Blank(gap) && gap != "" && ValidWord(next)
    ensures var c := Config(gap + (Written(next) + rest), Character, w, args);
            var c' := Config(rest, Character, Meaning(next), args + [w]);
            Scan(c) == Scan(c') && (|w| <= MAX_ARGUMENT_LENGTH && Room(c') ==> Room(c))
  {
    ScanGap(gap, Written(next) + rest, w, args);
    ScanWord(next, Whitespace, rest, "", args + [w]);
    assert "" + Meaning(next) == Meaning(next);
  }

  /** The rest of a line, behind a word that is complete but not saved. */
  lemma {:induction false} ScanLine(gaps: seq<string>, ws: seq<Word>, w: string, args: seq<string>)
    requires ValidLine(gaps, ws) && (ws != [] ==> gaps[0] != "")
    ensures var c := Config(Line(gaps, ws), Character, w, args);
            && Scan(c) == Some(args + ([w] + Meanings(ws)))
            && (|args| + |ws| + 1 < MAX_TEST_ARGS && |w| <= MAX_ARGUMENT_LENGTH && Fits(ws) ==> Room(c))
    decreases |ws|
  {
    if ws == [] {
      assert [w] + Meanings(ws) == [w];
    } else {
      ScanNext(gaps[0], ws[0], Line(gaps[1..], ws[1..]), w, args);
      ScanLine(gaps[1..], ws[1..], Meaning(ws[0]), args + [w]);
      MeaningsOf(ws);
      Assoc(args, [w], Meanings(ws));
    }
  }

  lemma MeaningsOf(ws: seq<Word>)
    requires ws != []
    ensures Meanings(ws) == [Meaning(ws[0])] + Meanings(ws[1..])
  {
  }

  /** Parsing gives back any non-empty list of words, whatever parts they are written with and whatever
      white space is around them; up to 127 words of up to 1024 characters fit the buffers. */
  lemma ParseInvertsWriting(gaps: seq<string>, ws: seq<Word>)
    requires ValidLine(gaps, ws) && ws != []
    ensures Parse(Line(gaps, ws)) == Some(Meanings(ws))
    ensures |ws| <= 127 && Fits(ws) ==> Room(Start(Line(gaps, ws)))
  {
    var rest := Line(gaps[1..], ws[1..]);
    ScanBlank(gaps[0], Written(ws[0]) + rest, []);
    ScanWord(ws[0], Whitespace, rest, "", []);
    assert "" + Meaning(ws[0]) == Meaning(ws[0]);
    ScanLine(gaps[1..], ws[1..], Meaning(ws[0]), []);
    MeaningsOf(ws);
    assert [] + Meanings(ws) == Meanings(ws);
    WrittenSomething(ws[0]);
  }

  lemma WrittenSomething(w: Word)
    requires ValidWord(w)
    ensures Written(w) != ""
  {
    assert w[0].Written() != "";
  }

  // ---------------------------------------------------------------- every input

  /** A reading of the input by single characters: which quote is open, and whether the last character
      was an escape that is still waiting for its character. */
  datatype Reader = Reader(quote: Option<char>, escaped: bool)

  function Read(r: Reader, c: char): Reader {
    if r.escaped then r.(escaped := false)
    else if r.quote == Some(c) then Reader(None, false)
    else if c == '\\' then r.(escaped := true)
    else if r.quote == None && (c == '"' || c == '\'') then Reader(Some(c), false)
    else r
  }

  function ReadAll(r: Reader, s: string): Reader
    decreases |s|
  {
    if s == "" then r else ReadAll(Read(r, s[0]), s[1..])
  }

  /** What a character is to the words: one of theirs, a part of one that is not kept, or white space
      between them. */
  datatype Mark = Kept(c: char) | Bare | Gap

  function MarkOf(r: Reader, c: char): Mark {
    if !r.escaped && r.quote == None && IsSpace(c) then Gap
    else if Read(r, c) == r || r.escaped then Kept(c)
    else Bare
  }

  function Marks(r: Reader, s: string): seq<Mark>
    decreases |s|
  {
    if s == "" then [] else [MarkOf(r, s[0])] + Marks(Read(r, s[0]), s[1..])
  }

  /** The stretches between the gaps. */
  function Pieces(ms: seq<Mark>): (ps: seq<seq<Mark>>)
    ensures ps != []
  {
    if ms == [] then [[]]
    else
      var ps := Pieces(ms[1..]);
      if ms[0] == Gap then [[]] + ps else [[ms[0]] + ps[0]] + ps[1..]
  }

  function Text(ms: seq<Mark>): string {
    if ms == [] then ""
    else (match ms[0] case Kept(c) => [c] case _ => "") + Text(ms[1..])
  }

  /** Every stretch that is not empty is a word, and the last is one in any case. */
  function Words(ps: seq<seq<Mark>>): (ws: seq<string>)
    requires ps != []
    ensures ws != []
  {
    if |ps| == 1 then [Text(ps[0])]
    else (if ps[0] == [] then [] else [Text(ps[0])]) + Words(ps[1..])
  }

  /** The same when the first stretch goes on from a token. */
  function WordsAfter(token: string, ps: seq<seq<Mark>>): seq<string>
    requires ps != []
  {
    [token + Text(ps[0])] + if |ps| == 1 then [] else Words(ps[1..])
  }

  function Reading(s: State): Reader {
    Reader(match s case DoubleQuote => Some('"') case SingleQuote => Some('\'') case _ => None, false)
  }

  ghost function Rest(c: Config): seq<string> {
    var ps := Pieces(Marks(Reading(c.state), c.rest));
    if c.state == Whitespace then Words(ps) else WordsAfter(c.token, ps)
  }

  lemma {:induction false} ScanFailsIff(c: Config)
    ensures Scan(c) == None <==> ReadAll(Reading(c.state), c.rest) != Reader(None, false)
    decreases |c.rest|
  {
    if c.rest != "" && Step(c).Some? {
      ScanFailsIff(Step(c).value);
      if c.rest[0] == '\\' {
        var r := Read(Reading(c.state), c.rest[0]);
        assert ReadAll(Reading(c.state), c.rest) == ReadAll(Read(r, c.rest[1..][0]), c.rest[1..][1..]);
      }
    }
  }

  /** There is no result just when the input ends inside quotes or after a lone backslash. */
  lemma ParseFailsIff(s: string)
    ensures Parse(s) == None <==>
            var end := ReadAll(Reader(None, false), s); end.quote.Some? || end.escaped
  {
    ScanFailsIff(Start(s));
  }

  /** A mark in front of the rest. */
  lemma PiecesOf(m: Mark, ms: seq<Mark>)
    ensures Pieces([m] + ms) == var ps := Pieces(ms);
                                if m == Gap then [[]] + ps else [[m] + ps[0]] + ps[1..]
  {
    Cons(m, ms);
  }

  lemma TextOf(m: Mark, ms: seq<Mark>)
    ensures Text([m] + ms) == (match m case Kept(c) => [c] case _ => "") + Text(ms)
  {
    Cons(m, ms);
  }

  /** A mark of a word joins the token. */
  lemma WordsJoin(token: string, m: Mark, ms: seq<Mark>)
    requires m != Gap
    ensures var kept := match m case Kept(c) => [c] case _ => "";
            && WordsAfter(token, Pieces([m] + ms)) == WordsAfter(token + kept, Pieces(ms))
            && Words(Pieces([m] + ms)) == WordsAfter(kept, Pieces(ms))
  {
    var kept := match m case Kept(c) => [c] case _ => "";
    var ps := Pieces(ms);
    PiecesOf(m, ms);
    TextOf(m, ps[0]);
    Assoc(token, kept, Text(ps[0]));
    assert ([[m] + ps[0]] + ps[1..])[1..] == ps[1..];
  }

  /** A gap ends the token, or is one more before the next word. */
  lemma WordsBreak(token: string, ms: seq<Mark>)
    ensures WordsAfter(token, Pieces([Gap] + ms)) == [token] + Words(Pieces(ms))
    ensures Words(Pieces([Gap] + ms)) == Words(Pieces(ms))
  {
    var ps := Pieces(ms);
    PiecesOf(Gap, ms);
    assert ([[]] + ps)[1..] == ps;
    assert token + Text([]) == token;
  }

  lemma FirstMark(c: Config)
    requires c.rest != ""
    ensures var r := Reading(c.state);
            Marks(r, c.rest) == [MarkOf(r, c.rest[0])] + Marks(Read(r, c.rest[0]), c.rest[1..])
  {
  }

  lemma GapRest(c: Config)
    requires c.rest != "" && MarkOf(Reading(c.state), c.rest[0]) == Gap && (c.state == Whitespace ==> c.token == "")
    ensures Step(c).Some? && Step(c).value.args + Rest(Step(c).value) == c.args + Rest(c)
    ensures Step(c).value.state == Whitespace && Step(c).value.token == ""
  {
    var later := Marks(Reading(Whitespace), c.rest[1..]);
    FirstMark(c);
    WordsBreak(c.token, later);
    Assoc(c.args, [c.token], Words(Pieces(later)));
  }

  /** A character that is no gap and no escape. */
  lemma JoinRest(c: Config)
    requires c.rest != "" && c.rest[0] != '\\' && (c.state == Whitespace ==> c.token == "")
    requires MarkOf(Reading(c.state), c.rest[0]) != Gap
    ensures Step(c).Some? && Step(c).value.args == c.args && Rest(Step(c).value) == Rest(c)
    ensures Step(c).value.state != Whitespace
  {
    var r, p := Reading(c.state), c.rest[0];
    var m, later := MarkOf(r, p), Marks(Read(r, p), c.rest[1..]);
    FirstMark(c);
    WordsJoin(c.token, m, later);
    EmptyToken(c, m);
    var c' := Step(c).value;
    assert Reading(c'.state) == Read(r, p) && c'.rest == c.rest[1..];
    assert c'.token == c.token + match m case Kept(x) => [x] case _ => "";
  }

  /** One round of the loop takes in the marks of the characters it reads. */
  lemma StepRest(c: Config)
    requires c.rest != "" && Step(c).Some? && (c.state == Whitespace ==> c.token == "")
    ensures var c' := Step(c).value;
            c'.args + Rest(c') == c.args + Rest(c) && (c'.state == Whitespace ==> c'.token == "")
  {
    if c.rest[0] == '\\' {
      EscapeRest(c);
    } else if MarkOf(Reading(c.state), c.rest[0]) == Gap {
      GapRest(c);
    } else {
      JoinRest(c);
    }
  }

  lemma EmptyToken(c: Config, m: Mark)
    requires c.state == Whitespace ==> c.token == ""
    ensures c.token + "" == c.token
    ensures m.Kept? && c.state == Whitespace ==> c.token + [m.c] == [m.c]
  {
  }

  lemma EscapeMarks(r: Reader, s: string)
    requires |s| >= 2 && s[0] == '\\' && !r.escaped && r.quote != Some('\\')
    ensures Marks(r, s) == [Bare] + ([Kept(s[1])] + Marks(r, s[2..]))
  {
    var e := r.(escaped := true);
    assert s[1..][0] == s[1] && s[1..][1..] == s[2..];
    assert Marks(e, s[1..]) == [Kept(s[1])] + Marks(r, s[2..]);
  }

  lemma WordsEscape(token: string, x: char, ms: seq<Mark>)
    ensures var ps := Pieces([Bare] + ([Kept(x)] + ms));
            WordsAfter(token, ps) == WordsAfter(token + [x], Pieces(ms)) && Words(ps) == WordsAfter([x], Pieces(ms))
  {
    WordsJoin(token, Bare, [Kept(x)] + ms);
    WordsJoin(token, Kept(x), ms);
    WordsJoin("", Kept(x), ms);
    assert token + "" == token && "" + [x] == [x];
  }

  lemma EscapeRest(c: Config)
    requires |c.rest| >= 2 && c.rest[0] == '\\' && (c.state == Whitespace ==> c.token == "")
    ensures Step(c).Some? && Rest(Step(c).value) == Rest(c)
    ensures Step(c).value.args == c.args && Step(c).value.state != Whitespace
  {
    var x, rest := c.rest[1], c.rest[2..];
    assert c.rest[1..][0] == x && c.rest[1..][1..] == rest;
    EscapeMarks(Reading(c.state), c.rest);
    WordsEscape(c.token, x, Marks(Reading(c.state), rest));
    assert c.state == Whitespace ==> c.token + [x] == [x];
  }

  lemma EmptyRest(c: Config)
    requires c.rest == "" && !InQuotes(c.state) && (c.state == Whitespace ==> c.token == "")
    ensures Rest(c) == [c.token]
  {
    var none: seq<Mark> := [];
    assert Marks(Reading(c.state), c.rest) == none;
    assert Pieces(none) == [none] && Text(none) == "";
    assert c.token + "" == c.token;
  }

  lemma {:induction false} ScanIs(c: Config)
    requires Scan(c).Some? && (c.state == Whitespace ==> c.token == "")
    ensures Scan(c) == Some(c.args + Rest(c))
    decreases |c.rest|
  {
    if c.rest == "" {
      EmptyRest(c);
    } else {
      StepRest(c);
      ScanIs(Step(c).value);
    }
  }

  /** An empty input has no words. */
  lemma EmptyInput()
    ensures Parse("") == Some([]) && forall s :: s != "" && Parse(s).Some? ==> Parse(s).value != []
  {
    forall s | s != "" && Parse(s).Some?
      ensures Parse(s).value != []
    {
      ScanIs(Start(s));
    }
  }

  /** For every input with a result, the words are the stretches between the gaps, with the characters
      that are kept. */
  lemma ParseIs(s: string)
    requires s != "" && Parse(s).Some?
    ensures Parse(s) == Some(Words(Pieces(Marks(Reader(None, false), s))))
  {
    ScanIs(Start(s));
    assert [] + Rest(Start(s)) == Rest(Start(s));
  }
}
