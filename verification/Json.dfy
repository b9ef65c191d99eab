/** The JSON tokenizer, default build: a specification step by step, and the parser that works in
    place on its token array. */
module Json {
  datatype Kind = Primitive | Object | Array | String

  datatype Token = Token(kind: Kind, start: int, end: int, size: int) {
    /** An object or array whose end was not seen yet. */
    predicate Open() { start != -1 && end == -1 }

    predicate Container() { kind == Array || kind == Object }
  }

  /** The parser structure and the tokens allocated so far; toknext is their number. */
  datatype State = State(pos: nat, toksuper: int, toks: seq<Token>) {
    predicate Ok() { -1 <= toksuper < |toks| }
  }

  /** A token count, an error code, or the comma that reads tokens[-1]. */
  datatype Outcome = Done(count: nat) | NoMem | Inval | Part | Wild

  const START := State(0, -1, [])

  // ----- scanning -----

  predicate Blank(c: char) { c == '\t' || c == '\r' || c == '\n' || c == ' ' }

  predicate Delimiter(c: char) { Blank(c) || c == ':' || c == ',' || c == ']' || c == '}' }

  predicate Printable(c: char) { 32 <= c as int < 127 }

  predicate Hex(c: char) { '0' <= c <= '9' || 'A' <= c <= 'F' || 'a' <= c <= 'f' }

  predicate Escape(c: char) {
    c == '\"' || c == '/' || c == '\\' || c == 'b' || c == 'f' || c == 'r' || c == 'n' || c == 't'
  }

  /** The text ends at its length or at a NUL. */
  predicate AtEnd(js: string, p: nat) { p >= |js| || js[p] == '\0' }

  datatype Scan = Found(end: nat) | Bad | Cut

  /** The end of a primitive that has been read up to p. */
  function PrimitiveEnd(js: string, p: nat): (r: Scan)
    ensures r.Found? ==> p <= r.end
    ensures !r.Cut?
    decreases |js| - p
  {
    if AtEnd(js, p) || Delimiter(js[p]) then Found(p)
    else if !Printable(js[p]) then Bad
    else PrimitiveEnd(js, p + 1)
  }

  /** Past at most n hexadecimal digits from p. */
  function HexEnd(js: string, p: nat, n: nat): (r: Scan)
    ensures r.Found? ==> p <= r.end && (p <= |js| ==> r.end <= |js|)
    ensures !r.Cut?
    decreases n
  {
    if n == 0 || AtEnd(js, p) then Found(p)
    else if !Hex(js[p]) then Bad
    else HexEnd(js, p + 1, n - 1)
  }

  /** The closing quote of a string that has been read up to p. */
  function StringEnd(js: string, p: nat): (r: Scan)
    ensures r.Found? ==> p <= r.end < |js|
    decreases |js| - p
  {
    if AtEnd(js, p) then Cut
    else if js[p] == '\"' then Found(p)
    else if js[p] != '\\' || p + 1 >= |js| then StringEnd(js, p + 1)
    else if Escape(js[p + 1]) then StringEnd(js, p + 2)
    else if js[p + 1] != 'u' then Bad
    else
      var h := HexEnd(js, p + 2, 4);
      if h.Bad? then Bad else StringEnd(js, h.end)
  }

  // ----- one step -----

  /** tokens[toksuper].size++, if there is a superior token. */
  function Bump(toks: seq<Token>, i: int): (r: seq<Token>)
    ensures |r| == |toks|
  {
    if 0 <= i < |toks| then toks[i := toks[i].(size := toks[i].size + 1)] else toks
  }

  /** The last open token before index n, or -1. */
  function LastOpen(toks: seq<Token>, n: nat): (i: int)
    ensures -1 <= i < n
    ensures n <= |toks| && i >= 0 ==> toks[i].Open()
    ensures n <= |toks| ==> forall j :: i < j < n ==> !toks[j].Open()
  {
    if n == 0 || n > |toks| then -1 else if toks[n - 1].Open() then n - 1 else LastOpen(toks, n - 1)
  }

  /** The last open object or array, or -1. */
  function LastOpenContainer(toks: seq<Token>, n: nat): (i: int)
    ensures -1 <= i < n
    ensures n <= |toks| && i >= 0 ==> toks[i].Open() && toks[i].Container()
    ensures n <= |toks| ==> forall j :: i < j < n ==> !(toks[j].Open() && toks[j].Container())
  {
    if n == 0 || n > |toks| then -1 else if toks[n - 1].Open()
        && toks[n - 1].Container() then n - 1 else LastOpenContainer(toks, n - 1)
  }

  /** One round of the loop: the next state and whether a token was counted, or the reason to stop. */
  datatype Round = Next(st: State, counted: bool) | Stop(why: Outcome)

  /** cap is the number of token slots, or negative for no token array. */
  function Step(js: string, st: State, cap: int): (r: Round)
    requires st.pos < |js|
    ensures r.Stop? ==> !r.why.Done?
  {
    var c, p, n := js[st.pos], st.pos, |st.toks|;
    if c == '{' || c == '[' then
      if cap < 0 then Next(st.(pos := p + 1), true) else OpenStep(st, cap, if c == '{' then Object else Array)
    else if c == '}' || c == ']' then
      if cap < 0 then Next(st.(pos := p + 1), false) else CloseStep(st, if c == '}' then Object else Array)
    else if c == '\"' then
      (match StringEnd(js, p + 1)
       case Bad => Stop(Inval)
       case Cut => Stop(Part)
       case Found(q) => LeafStep(st, cap, Token(String, p + 1, q, 0), q + 1))
    else if Blank(c) then Next(st.(pos := p + 1), false)
    else if c == ':' then Next(st.(pos := p + 1, toksuper := n - 1), false)
    else if c == ',' then
      if cap < 0 then Next(st.(pos := p + 1), false) else CommaStep(st)
    else
      (match PrimitiveEnd(js, p)
       case Found(q) => LeafStep(st, cap, Token(Primitive, p, q, 0), q)
       case _ => Stop(Inval))
  }

  function OpenStep(st: State, cap: int, kind: Kind): Round {
    if |st.toks| >= cap then Stop(NoMem)
    else Next(State(st.pos + 1, |st.toks|, Bump(st.toks, st.toksuper) + [Token(kind, st.pos, -1, 0)]), true)
  }

  /** A string or primitive. */
  function LeafStep(st: State, cap: int, t: Token, next: nat): Round {
    if cap < 0 then Next(st.(pos := next), true)
    else if |st.toks| >= cap then Stop(NoMem)
    else Next(State(next, st.toksuper, Bump(st.toks, st.toksuper) + [t]), true)
  }

  function CloseStep(st: State, kind: Kind): Round {
    var i := LastOpen(st.toks, |st.toks|);
    if i < 0 || st.toks[i].kind != kind then Stop(Inval)
    else
      var toks := st.toks[i := st.toks[i].(end := st.pos + 1)];
      Next(State(st.pos + 1, LastOpen(toks, i), toks), false)
  }

  function CommaStep(st: State): Round {
    if !(0 <= st.toksuper < |st.toks|) then Stop(Wild)
    else if st.toks[st.toksuper].Container() then Next(st.(pos := st.pos + 1), false)
    else
      var i := LastOpenContainer(st.toks, |st.toks|);
      Next(st.(pos := st.pos + 1, toksuper := if i >= 0 then i else st.toksuper), false)
  }

  lemma StepAdvances(js: string, st: State, cap: int)
    requires st.pos < |js| && js[st.pos] != '\0' && Step(js, st, cap).Next?
    ensures st.pos < Step(js, st, cap).st.pos
  {
    hide StringEnd, LastOpen, LastOpenContainer, Bump;
    if !Delimiter(js[st.pos]) && Printable(js[st.pos]) {
      assert PrimitiveEnd(js, st.pos) == PrimitiveEnd(js, st.pos + 1);
    }
  }

  // ----- runs -----

  datatype Result = Result(out: Outcome, st: State)

  /** json_parse from a state, with count tokens counted so far. Every error leaves the state as it
      was at the start of the round. */
  function Run(js: string, st: State, cap: int, count: nat): Result
    decreases |js| - st.pos
  {
    if AtEnd(js, st.pos) then
      Result(if LastOpen(st.toks, |st.toks|) >= 0 then Part else Done(count), st)
    else
      match Step(js, st, cap)
      case Stop(why) => Result(why, st)
      case Next(st', counted) =>
        StepAdvances(js, st, cap);
        Run(js, st', cap, if counted then count + 1 else count)
  }

  /** Unfolding a run by one round. */
  lemma RunUnfolds(js: string, st: State, cap: int, count: nat)
    requires !AtEnd(js, st.pos)
    ensures var s := Step(js, st, cap);
      && (s.Stop? ==> Run(js, st, cap, count) == Result(s.why, st))
      && (s.Next? ==>
         st.pos < s.st.pos && Run(js, st, cap, count) == Run(js, s.st, cap, if s.counted then count + 1 else count))
  {
    hide Step;
    if Step(js, st, cap).Next? { StepAdvances(js, st, cap); }
  }

  lemma RunEnds(js: string, st: State, cap: int, count: nat)
    requires AtEnd(js, st.pos)
    ensures Run(js, st, cap, count) == Result(if LastOpen(st.toks, |st.toks|) >= 0 then Part else Done(count), st)
  {
    hide LastOpen;
  }

  lemma BumpPrefix(toks: seq<Token>, t: Token, i: int)
    requires i < |toks|
    ensures Bump(toks + [t], i) == Bump(toks, i) + [t]
  {}

  lemma StepOk(js: string, st: State, cap: int)
    requires st.pos < |js| && st.Ok() && Step(js, st, cap).Next?
    ensures Step(js, st, cap).st.Ok()
  {}

  // ----- what the tokens say about the text -----

  predicate Opens(c: char, kind: Kind) { (c == '{' && kind == Object) || (c == '[' && kind == Array) }

  predicate Closes(c: char, kind: Kind) { (c == '}' && kind == Object) || (c == ']' && kind == Array) }

  /** The text of a token is what its kind says: a container stands between brackets of its kind, the
      second still to come if it is open, a string between quotes, and a primitive is a run of printable
      characters none of which ends it. */
  predicate Meant(js: string, t: Token, pos: nat) {
    match t.kind
    case String => 1 <= t.start <= t.end < pos <= |js| && js[t.start - 1] == '\"' && js[t.end] == '\"'
    case Primitive =>
      0 <= t.start < t.end <= pos <= |js|
      && forall k :: t.start <= k < t.end ==> Printable(js[k]) && !Delimiter(js[k])
    case _ =>
      0 <= t.start < pos <= |js| && Opens(js[t.start], t.kind)
      && (t.end == -1 || (t.start < t.end <= pos && Closes(js[t.end - 1], t.kind)))
  }

  /** A later token lies within an earlier container or behind the earlier token. */
  predicate Nested(a: Token, b: Token) {
    a.start < b.start
    && ((a.Container() && (a.Open() || (!b.Open() && b.end < a.end))) || (!a.Open() && a.end <= b.start))
  }

  predicate Sound(js: string, st: State) {
    (forall i :: 0 <= i < |st.toks| ==> Meant(js, st.toks[i], st.pos))
    && (forall i, j :: 0 <= i < j < |st.toks| ==> Nested(st.toks[i], st.toks[j]))
  }

  lemma {:induction false} StringEndsAtQuote(js: string, p: nat)
    ensures StringEnd(js, p).Found? ==> js[StringEnd(js, p).end] == '\"'
    decreases |js| - p
  {
    if !AtEnd(js, p) && js[p] != '\"' {
      if js[p] != '\\' || p + 1 >= |js| {
        StringEndsAtQuote(js, p + 1);
      } else if Escape(js[p + 1]) {
        StringEndsAtQuote(js, p + 2);
      } else if js[p + 1] == 'u' && HexEnd(js, p + 2, 4).Found? {
        StringEndsAtQuote(js, HexEnd(js, p + 2, 4).end);
      }
    }
  }

  lemma {:induction false} PrimitiveIsLongest(js: string, p: nat)
    requires p <= |js| && PrimitiveEnd(js, p).Found?
    ensures var q := PrimitiveEnd(js, p).end;
      && q <= |js| && (AtEnd(js, q) || Delimiter(js[q]))
      && forall k :: p <= k < q ==> Printable(js[k]) && !Delimiter(js[k])
    decreases |js| - p
  {
    if !AtEnd(js, p) && !Delimiter(js[p]) { PrimitiveIsLongest(js, p + 1); }
  }

  /** The same token, but perhaps for its size. */
  predicate SamePlace(t: Token, u: Token) { t.kind == u.kind && t.start == u.start && t.end == u.end }

  lemma BumpKeeps(toks: seq<Token>, i: int, k: nat)
    requires k < |toks|
    ensures SamePlace(toks[k], Bump(toks, i)[k])
  {}

  lemma MeantLater(js: string, t: Token, u: Token, pos: nat, later: nat)
    requires Meant(js, t, pos) && SamePlace(t, u) && pos <= later <= |js|
    ensures Meant(js, u, later)
  {}

  lemma NestedSame(a: Token, b: Token, a': Token, b': Token)
    requires Nested(a, b) && SamePlace(a, a') && SamePlace(b, b')
    ensures Nested(a', b')
  {}

  lemma NestedBehind(js: string, a: Token, pos: nat, t: Token)
    requires Meant(js, a, pos) && pos <= t.start && (t.end == -1 || t.start <= t.end)
    ensures Nested(a, t)
  {}

  /** A token that starts at the place that is read, and the sizes of the earlier ones counted anew. */
  lemma SoundAppended(js: string, st: State, t: Token, i: int, next: State)
    requires Sound(js, st) && st.pos <= t.start && Meant(js, t, next.pos) && st.pos <= next.pos <= |js|
    requires next.toks == Bump(st.toks, i) + [t]
    ensures Sound(js, next)
  {
    assert t.end == -1 || t.start <= t.end;
    hide Meant, Nested, SamePlace, Bump;
    var n := |st.toks|;
    forall k | 0 <= k < n ensures SamePlace(st.toks[k], next.toks[k]) && Meant(js, next.toks[k], next.pos) {
      BumpKeeps(st.toks, i, k);
      assert next.toks[k] == Bump(st.toks, i)[k];
      MeantLater(js, st.toks[k], next.toks[k], st.pos, next.pos);
    }
    forall k, l | 0 <= k < l <= n ensures Nested(next.toks[k], next.toks[l]) {
      if l < n {
        NestedSame(st.toks[k], st.toks[l], next.toks[k], next.toks[l]);
      } else {
        assert next.toks[n] == t;
        MeantLater(js, st.toks[k], next.toks[k], st.pos, st.pos);
        NestedBehind(js, next.toks[k], st.pos, t);
      }
    }
  }

  lemma SoundMoved(js: string, st: State, next: State)
    requires Sound(js, st) && next.toks == st.toks && st.pos <= next.pos <= |js|
    ensures Sound(js, next)
  {
    hide Printable, Delimiter;
    forall k | 0 <= k < |st.toks| ensures Meant(js, next.toks[k], next.pos) {
      assert Meant(js, st.toks[k], st.pos);
    }
  }

  /** The innermost open token. */
  predicate Innermost(toks: seq<Token>, i: nat) {
    i < |toks| && toks[i].Open() && forall j :: i < j < |toks| ==> !toks[j].Open()
  }

  lemma OneInnermost(toks: seq<Token>, i: nat, k: nat)
    requires Innermost(toks, i) && Innermost(toks, k)
    ensures i == k
  {}

  /** Token i is the innermost open one, and its bracket is the partner of the bracket that is read. */
  predicate Partner(js: string, st: State, i: nat)
    requires st.pos < |js|
  {
    Innermost(st.toks, i) && 0 <= st.toks[i].start < |js|
    && ((js[st.toks[i].start] == '{' && js[st.pos] == '}') || (js[st.toks[i].start] == '[' && js[st.pos] == ']'))
  }

  /** A closing bracket is taken exactly if the innermost open token was opened by its partner, which it
      then closes, and is refused as invalid otherwise, also if no token is open. */
  lemma ClosedByPartner(js: string, st: State, cap: nat)
    requires st.pos < |js| && Sound(js, st) && (js[st.pos] == '}' || js[st.pos] == ']')
    ensures var s := Step(js, st, cap);
      && (s == Stop(Inval) || s.Next?)
      && (s.Next? <==> exists i: nat :: Partner(js, st, i))
      && forall i: nat :: s.Next? && Partner(js, st, i) ==> s.st.toks == st.toks[i := st.toks[i].(end := st.pos + 1)]
  {
    hide StringEnd, PrimitiveEnd, Printable, Delimiter;
    var i := LastOpen(st.toks, |st.toks|);
    if i >= 0 {
      assert Meant(js, st.toks[i], st.pos) && Innermost(st.toks, i);
      forall k: nat | Innermost(st.toks, k) ensures k == i { OneInnermost(st.toks, i, k); }
      assert Step(js, st, cap).Next? ==> Partner(js, st, i);
    }
  }

  lemma SoundClosed(js: string, st: State, i: nat, next: State)
    requires Sound(js, st) && st.pos < |js| && next.pos == st.pos + 1 && Partner(js, st, i)
    requires next.toks == st.toks[i := st.toks[i].(end := st.pos + 1)]
    ensures Sound(js, next)
  {
    hide Printable, Delimiter;
    forall k | 0 <= k < |st.toks| ensures Meant(js, next.toks[k], next.pos) {
      assert Meant(js, st.toks[k], st.pos);
    }
    forall k, l | 0 <= k < l < |st.toks| ensures Nested(next.toks[k], next.toks[l]) {
      assert Meant(js, st.toks[k], st.pos) && Meant(js, st.toks[l], st.pos) && Nested(st.toks[k], st.toks[l]);
    }
  }

  lemma SoundStep(js: string, st: State, cap: nat)
    requires st.pos < |js| && js[st.pos] != '\0' && Sound(js, st) && Step(js, st, cap).Next?
    ensures Sound(js, Step(js, st, cap).st) && Step(js, st, cap).st.pos <= |js|
  {
    hide StringEnd, PrimitiveEnd, LastOpen, LastOpenContainer, Bump, Sound;
    var c, p, s := js[st.pos], st.pos, Step(js, st, cap).st;
    StepAdvances(js, st, cap);
    if c == '{' || c == '[' {
      SoundAppended(js, st, Token(if c == '{' then Object else Array, p, -1, 0), st.toksuper, s);
    } else if c == '}' || c == ']' {
      ClosedByPartner(js, st, cap);
      var i: nat :| Partner(js, st, i);
      SoundClosed(js, st, i, s);
    } else if c == '\"' {
      StringEndsAtQuote(js, p + 1);
      SoundAppended(js, st, Token(String, p + 1, StringEnd(js, p + 1).end, 0), st.toksuper, s);
    } else if Blank(c) || c == ':' || c == ',' {
      SoundMoved(js, st, s);
    } else {
      PrimitiveIsLongest(js, p);
      SoundAppended(js, st, Token(Primitive, p, PrimitiveEnd(js, p).end, 0), st.toksuper, s);
    }
  }

  /** Over any run, whatever its outcome, the tokens mean their text and are nested; after a run that
      succeeds every one of them is closed. */
  lemma {:induction false} RunSound(js: string, st: State, cap: nat, count: nat)
    requires st.pos <= |js| && Sound(js, st)
    ensures Sound(js, Run(js, st, cap, count).st)
    ensures Run(js, st, cap, count).out.Done? ==> forall t :: t in Run(js, st, cap, count).st.toks ==> !t.Open()
    decreases |js| - st.pos
  {
    hide Step, Sound;
    if !AtEnd(js, st.pos) && Step(js, st, cap).Next? {
      StepAdvances(js, st, cap);
      SoundStep(js, st, cap);
      var r := Step(js, st, cap);
      RunSound(js, r.st, cap, if r.counted then count + 1 else count);
    }
  }

  /** So a text whose parsing succeeds has no container that is closed by the wrong bracket or not at
      all. */
  lemma ParsedIsSound(js: string, cap: nat)
    requires Run(js, START, cap, 0).out.Done?
    ensures var st := Run(js, START, cap, 0).st;
      forall i :: 0 <= i < |st.toks| && st.toks[i].Container() ==>
        var t := st.toks[i];
        && 0 <= t.start < t.end <= |js| && Opens(js[t.start], t.kind) && Closes(js[t.end - 1], t.kind)
        && forall j :: i < j < |st.toks| ==> Nested(t, st.toks[j])
  {
    hide Run;
    RunSound(js, START, cap, 0);
    var st := Run(js, START, cap, 0).st;
    forall i | 0 <= i < |st.toks| && st.toks[i].Container()
      ensures !st.toks[i].Open() && Meant(js, st.toks[i], st.pos)
    {
      assert st.toks[i] in st.toks;
    }
  }

  // ----- dry run -----

  /** With and without tokens the parser reads the same text and counts the same tokens; with tokens it
      also allocates them. */
  lemma DryStep(js: string, st: State, d: State, cap: nat)
    requires st.pos == d.pos < |js| && js[st.pos] != '\0'
    ensures var s, t := Step(js, st, cap), Step(js, d, -1);
      && (t.Stop? ==> t.why != NoMem && t.why != Wild && (s.Stop? && s.why == t.why))
      && (t.Next? && s.Next? ==> s.st.pos == t.st.pos && s.counted == t.counted
                                 && |s.st.toks| == |st.toks| + if s.counted then 1 else 0)
      && (t.Next? && s.Stop? && s.why == NoMem ==> t.counted && |st.toks| >= cap)
  {
    hide StringEnd, PrimitiveEnd, LastOpen, LastOpenContainer, Bump;
  }

  lemma {:induction false} DryCountGrows(js: string, d: State, count: nat)
    ensures Run(js, d, -1, count).out.Done? ==> Run(js, d, -1, count).out.count >= count
    decreases |js| - d.pos
  {
    hide Step, LastOpen;
    if !AtEnd(js, d.pos) && Step(js, d, -1).Next? {
      StepAdvances(js, d, -1);
      var r := Step(js, d, -1);
      DryCountGrows(js, r.st, if r.counted then count + 1 else count);
    }
  }

  /** If the dry run counts n tokens, a run with at least n slots never runs out of them, and when it
      succeeds it returns n. */
  lemma {:induction false} DryRunPredicts(js: string, st: State, d: State, cap: nat, count: nat)
    requires st.pos == d.pos && |st.toks| == count && d.toks == []
    requires Run(js, d, -1, count).out.Done? && Run(js, d, -1, count).out.count <= cap
    ensures var r := Run(js, st, cap, count).out;
      r != NoMem && (r.Done? ==> r.count == Run(js, d, -1, count).out.count)
    decreases |js| - st.pos
  {
    hide Step, LastOpen;
    if !AtEnd(js, st.pos) {
      DryStep(js, st, d, cap);
      var s, t := Step(js, st, cap), Step(js, d, -1);
      if t.Next? {
        StepAdvances(js, d, -1);
        DryTokens(js, d);
        DryCountGrows(js, t.st, if t.counted then count + 1 else count);
        if s.Next? {
          DryRunPredicts(js, s.st, t.st, cap, if s.counted then count + 1 else count);
        }
      }
    }
  }

  lemma DryTokens(js: string, d: State)
    requires d.pos < |js| && d.toks == [] && Step(js, d, -1).Next?
    ensures Step(js, d, -1).st.toks == []
  {
    hide StringEnd, PrimitiveEnd, LastOpen, LastOpenContainer;
  }

  lemma {:induction false} FullRunIsDryRun(js: string, st: State, d: State, cap: nat, count: nat)
    requires st.pos == d.pos && d.toks == [] && Run(js, st, cap, count).out.Done?
    ensures Run(js, d, -1, count).out == Run(js, st, cap, count).out
    decreases |js| - st.pos
  {
    hide Step;
    if !AtEnd(js, st.pos) {
      DryStep(js, st, d, cap);
      DryTokens(js, d);
      var s := Step(js, st, cap);
      StepAdvances(js, st, cap);
      FullRunIsDryRun(js, s.st, Step(js, d, -1).st, cap, if s.counted then count + 1 else count);
    }
  }

  // ----- restart -----

  lemma MoreSlots(js: string, st: State, cap: nat, more: nat)
    requires st.pos < |js| && cap <= more && !(Step(js, st, cap).Stop? && Step(js, st, cap).why == NoMem)
    ensures Step(js, st, more) == Step(js, st, cap)
  {
    hide StringEnd, PrimitiveEnd, LastOpen, LastOpenContainer, Bump;
  }

  predicate SameButCount(a: Outcome, b: Outcome) { a == b || (a.Done? && b.Done?) }

  lemma {:induction false} CountOnlyAdds(js: string, st: State, cap: int, m: nat, n: nat)
    ensures Run(js, st, cap, m).st == Run(js, st, cap, n).st
            && SameButCount(Run(js, st, cap, m).out, Run(js, st, cap, n).out)
    ensures Run(js, st, cap, m).out.Done? ==> Run(js, st, cap, m).out.count - m == Run(js, st, cap, n).out.count - n
    decreases |js| - st.pos
  {
    hide Step, LastOpen;
    if !AtEnd(js, st.pos) && Step(js, st, cap).Next? {
      StepAdvances(js, st, cap);
      var r := Step(js, st, cap);
      CountOnlyAdds(js, r.st, cap, if r.counted then m + 1 else m, if r.counted then n + 1 else n);
    }
  }

  /** A run that stopped for want of slots, resumed with more of them, ends in the state and with the
      outcome of one run that had them all; only the count starts over. */
  lemma {:induction false} ResumeIsOneRun(js: string, st: State, cap: nat, more: nat, count: nat)
    requires cap <= more && Run(js, st, cap, count).out == NoMem
    ensures var stopped := Run(js, st, cap, count).st;
      var resumed, whole := Run(js, stopped, more, 0), Run(js, st, more, count);
      resumed.st == whole.st && SameButCount(resumed.out, whole.out)
    decreases |js| - st.pos
  {
    hide Step, LastOpen;
    var s := Step(js, st, cap);
    if s.Next? {
      StepAdvances(js, st, cap);
      MoreSlots(js, st, cap, more);
      ResumeIsOneRun(js, s.st, cap, more, if s.counted then count + 1 else count);
    } else {
      CountOnlyAdds(js, st, more, 0, count);
    }
  }

  // ----- the comma without a superior token -----

  /** A comma met while no token is superior reads tokens[-1]; it is the only way a run goes wild. */
  lemma WildComma(js: string, st: State, cap: nat)
    requires st.pos < |js| && st.Ok()
    ensures Step(js, st, cap) == Stop(Wild) <==> js[st.pos] == ',' && st.toksuper == -1
  {
    hide PrimitiveEnd, StringEnd, LastOpen, LastOpenContainer, Bump;
  }

  /** The shortest such text. */
  lemma LeadingComma(cap: nat)
    ensures Run(",", START, cap, 0).out == Wild
  {}
}
