/** JSON trees with the white space between their tokens, their printed text and the tokens it must
    yield; the tokenizer inverts printing. */
module JsonTree {
  import opened Json

  /** Items and members carry the white space before and after each part. */
  datatype Value =
    | Prim(text: string)
    | Str(body: string)
    | Arr(gap: string, items: Items)
    | Obj(gap: string, members: Members)

  datatype Items = NoItems | Item(before: string, value: Value, after: string, rest: Items)

  datatype Members =
    | NoMembers
    | Member(before: string, key: string, beforeColon: string, afterColon: string, value: Value, after: string,
        rest: Members)

  // ----- well-formed trees -----

  predicate Blanks(s: string) { forall i :: 0 <= i < |s| ==> Blank(s[i]) }

  /** A primitive: printable, without delimiters, not opening like anything else. */
  predicate PrimOk(s: string) {
    && |s| > 0 && s[0] != '{' && s[0] != '[' && s[0] != '\"'
    && forall i :: 0 <= i < |s| ==> Printable(s[i]) && !Delimiter(s[i])
  }

  predicate HexDigits(s: string) { forall i :: 0 <= i < |s| ==> Hex(s[i]) }

  /** The body of a string: plain characters and complete escapes. */
  predicate BodyOk(s: string)
    decreases |s|
  {
    if s == [] then true
    else if s[0] == '\"' || s[0] == '\0' then false
    else if s[0] != '\\' then BodyOk(s[1..])
    else if |s| < 2 then false
    else if Escape(s[1]) then BodyOk(s[2..])
    else s[1] == 'u' && |s| >= 6 && HexDigits(s[2..6]) && BodyOk(s[6..])
  }

  predicate ValueOk(v: Value) {
    match v
    case Prim(text) => PrimOk(text)
    case Str(body) => BodyOk(body)
    case Arr(gap, items) => Blanks(gap) && ItemsOk(items)
    case Obj(gap, members) => Blanks(gap) && MembersOk(members)
  }

  predicate ItemsOk(items: Items) {
    match items
    case NoItems => true
    case Item(before, v, after, rest) => Blanks(before) && ValueOk(v) && Blanks(after) && ItemsOk(rest)
  }

  predicate MembersOk(ms: Members) {
    match ms
    case NoMembers => true
    case Member(before, key, bc, ac, v, after, rest) =>
      Blanks(before) && BodyOk(key) && Blanks(bc) && Blanks(ac) && ValueOk(v) && Blanks(after) && MembersOk(rest)
  }

  // ----- printing -----

  function Quoted(s: string): string { "\"" + s + "\"" }

  function Print(v: Value): string {
    match v
    case Prim(text) => text
    case Str(body) => Quoted(body)
    case Arr(gap, items) => "[" + gap + PrintItems(items, true) + "]"
    case Obj(gap, members) => "{" + gap + PrintMembers(members, true) + "}"
  }

  function Comma(first: bool): string { if first then "" else "," }

  function PrintItems(items: Items, first: bool): string {
    match items
    case NoItems => ""
    case Item(before, v, after, rest) => Comma(first) + before + Print(v) + after + PrintItems(rest, false)
  }

  function PrintMembers(ms: Members, first: bool): string {
    match ms
    case NoMembers => ""
    case Member(before, key, bc, ac, v, after, rest) =>
      Comma(first) + before + Quoted(key) + bc + ":" + ac + Print(v) + after + PrintMembers(rest, false)
  }

  // ----- the tokens of a tree -----

  function CountItems(items: Items): nat {
    match items
    case NoItems => 0
    case Item(_, _, _, rest) => 1 + CountItems(rest)
  }

  function CountMembers(ms: Members): nat {
    match ms
    case NoMembers => 0
    case Member(_, _, _, _, _, _, rest) => 1 + CountMembers(rest)
  }

  /** The tree's preorder, printed from offset p: arrays count elements, objects count keys, keys count
      their one value; strings exclude their quotes. */
  function Tokens(v: Value, p: nat): seq<Token> {
    match v
    case Prim(text) => [Token(Primitive, p, p + |text|, 0)]
    case Str(body) => [Token(String, p + 1, p + 1 + |body|, 0)]
    case Arr(gap, items) =>
      [Token(Array, p, p + |Print(v)|, CountItems(items))] + ItemTokens(items, true, p + 1 + |gap|)
    case Obj(gap, members) =>
      [Token(Object, p, p + |Print(v)|, CountMembers(members))] + MemberTokens(members, true, p + 1 + |gap|)
  }

  function ItemTokens(items: Items, first: bool, p: nat): seq<Token> {
    match items
    case NoItems => []
    case Item(before, v, after, rest) =>
      var q := p + |Comma(first)| + |before|;
      Tokens(v, q) + ItemTokens(rest, false, q + |Print(v)| + |after|)
  }

  function MemberTokens(ms: Members, first: bool, p: nat): seq<Token> {
    match ms
    case NoMembers => []
    case Member(before, key, bc, ac, v, after, rest) =>
      var k := p + |Comma(first)| + |before|;
      var q := k + |Quoted(key)| + |bc| + 1 + |ac|;
      [Token(String, k + 1, k + 1 + |key|, 1)] + Tokens(v, q) + MemberTokens(rest, false, q + |Print(v)| + |after|)
  }

  // ----- scanning printed pieces -----

  /** The text s stands at p in js. */
  predicate Here(js: string, p: nat, s: string) { p + |s| <= |js| && js[p..p + |s|] == s }

  lemma HereSplit(js: string, p: nat, s: string, t: string)
    requires Here(js, p, s + t)
    ensures Here(js, p, s) && Here(js, p + |s|, t)
  {
    assert js[p..p + |s + t|][..|s|] == s && js[p..p + |s + t|][|s|..] == t;
  }

  lemma HereAt(js: string, p: nat, s: string, i: nat)
    requires Here(js, p, s) && i < |s|
    ensures p + i < |js| && js[p + i] == s[i]
  {
    assert js[p..p + |s|][i] == js[p + i];
  }

  lemma {:induction false} ScanPrimitive(js: string, p: nat, s: string, i: nat)
    requires Here(js, p, s) && i <= |s| && (forall j :: 0 <= j < |s| ==> Printable(s[j]) && !Delimiter(s[j]))
    requires AtEnd(js, p + |s|) || Delimiter(js[p + |s|])
    ensures PrimitiveEnd(js, p + i) == Found(p + |s|)
    decreases |s| - i
  {
    if i < |s| {
      HereAt(js, p, s, i);
      ScanPrimitive(js, p, s, i + 1);
    }
  }

  lemma {:induction false} ScanHex(js: string, p: nat, n: nat)
    requires p + n <= |js| && forall i :: p <= i < p + n ==> Hex(js[i])
    ensures HexEnd(js, p, n) == Found(p + n)
    decreases n
  {
    if n > 0 {
      ScanHex(js, p + 1, n - 1);
    }
  }

  lemma {:induction false} ScanString(js: string, p: nat, s: string)
    requires BodyOk(s) && Here(js, p, s) && p + |s| < |js| && js[p + |s|] == '\"'
    ensures StringEnd(js, p) == Found(p + |s|)
    decreases |s|
  {
    hide Here, HexDigits;
    if s != [] {
      HereAt(js, p, s, 0);
      if s[0] != '\\' {
        HereDrop(js, p, s, 1);
        ScanString(js, p + 1, s[1..]);
      } else if Escape(s[1]) {
        HereAt(js, p, s, 1);
        HereDrop(js, p, s, 2);
        ScanString(js, p + 2, s[2..]);
      } else {
        HereAt(js, p, s, 1);
        HereDrop(js, p, s, 6);
        HexHere(js, p, s);
        ScanHex(js, p + 2, 4);
        ScanString(js, p + 6, s[6..]);
      }
    }
  }

  lemma HereDrop(js: string, p: nat, s: string, k: nat)
    requires Here(js, p, s) && k <= |s|
    ensures Here(js, p + k, s[k..])
  {
    assert js[p..p + |s|][k..] == js[p + k..p + |s|];
  }

  lemma HexHere(js: string, p: nat, s: string)
    requires Here(js, p, s) && |s| >= 6 && HexDigits(s[2..6])
    ensures p + 6 <= |js| && forall i :: p + 2 <= i < p + 6 ==> Hex(js[i])
  {
    forall i | p + 2 <= i < p + 6 ensures Hex(js[i]) {
      HereAt(js, p, s, i - p);
      assert s[2..6][i - p - 2] == s[i - p];
    }
  }

  // ----- the parser on printed pieces -----

  /** Two runs with the same result. */
  ghost predicate Reaches(js: string, cap: int, st: State, n: nat, st': State, n': nat) {
    Run(js, st, cap, n) == Run(js, st', cap, n')
  }

  lemma RunStep(js: string, st: State, cap: int, n: nat)
    requires !AtEnd(js, st.pos) && Step(js, st, cap).Next?
    ensures var r := Step(js, st, cap); Reaches(js, cap, st, n, r.st, if r.counted then n + 1 else n)
  {
    hide Step;
    StepAdvances(js, st, cap);
  }

  lemma {:induction false} RunBlanks(js: string, st: State, cap: int, n: nat, s: string)
    requires Here(js, st.pos, s) && Blanks(s)
    ensures Reaches(js, cap, st, n, st.(pos := st.pos + |s|), n)
    decreases |s|
  {
    if s != [] {
      HereAt(js, st.pos, s, 0);
      assert s == s[..1] + s[1..];
      HereSplit(js, st.pos, s[..1], s[1..]);
      RunStep(js, st, cap, n);
      RunBlanks(js, st.(pos := st.pos + 1), cap, n, s[1..]);
    }
  }

  /** What a value adds to the tokens: its own, and one to the size of the token above it. */
  function After(toks: seq<Token>, super: int, more: seq<Token>): (r: seq<Token>)
    ensures |r| == |toks| + |more|
  {
    Bump(toks, super) + more
  }

  /** toksuper after a value: unchanged by a leaf, the enclosing container after a container. */
  function SuperAfter(st: State, v: Value): int {
    if v.Prim? || v.Str? then st.toksuper else LastOpen(st.toks, |st.toks|)
  }

  lemma RunPrim(js: string, st: State, cap: int, n: nat, text: string)
    requires Here(js, st.pos, text) && PrimOk(text) && (AtEnd(js, st.pos + |text|) || Delimiter(js[st.pos + |text|]))
    requires |st.toks| + 1 <= cap
    ensures Reaches(js, cap, st, n, State(st.pos + |text|, st.toksuper,
            After(st.toks, st.toksuper, Tokens(Prim(text), st.pos))), n + 1)
  {
    hide PrimitiveEnd, Bump;
    HereAt(js, st.pos, text, 0);
    ScanPrimitive(js, st.pos, text, 0);
    RunStep(js, st, cap, n);
  }

  lemma RunString(js: string, st: State, cap: int, n: nat, body: string)
    requires Here(js, st.pos, Quoted(body)) && BodyOk(body) && |st.toks| + 1 <= cap
    ensures Reaches(js, cap, st, n, State(st.pos + |body| + 2, st.toksuper,
            After(st.toks, st.toksuper, Tokens(Str(body), st.pos))), n + 1)
  {
    hide StringEnd, Bump, Here, BodyOk, LastOpen, CloseStep, CommaStep, PrimitiveEnd, Run, After, Step, Quoted;
    QuotedPieces(js, st.pos, body);
    ScanString(js, st.pos + 1, body);
    StringStep(js, st, cap);
    RunStep(js, st, cap, n);
    AfterIs(st.toks, st.toksuper, Tokens(Str(body), st.pos));
  }

  lemma QuotedPieces(js: string, p: nat, body: string)
    requires Here(js, p, Quoted(body))
    ensures p + |body| + 1 < |js| && js[p] == '\"' && Here(js, p + 1, body) && js[p + 1 + |body|] == '\"'
            && |Quoted(body)| == |body| + 2
  {
    var s := Quoted(body);
    HereAt(js, p, s, 0);
    HereAt(js, p, s, |body| + 1);
    HereDrop(js, p, s, 1);
    assert s[1..] == body + "\"";
    HereSplit(js, p + 1, body, "\"");
  }

  lemma StringStep(js: string, st: State, cap: int)
    requires st.pos < |js| && js[st.pos] == '\"' && StringEnd(js, st.pos + 1).Found?
    ensures Step(js, st, cap) == LeafStep(st, cap, Token(String, st.pos + 1, StringEnd(js, st.pos + 1).end, 0),
            StringEnd(js, st.pos + 1).end + 1)
  {
    hide StringEnd, LeafStep;
  }

  // ----- open tokens -----

  /** The last open token is at a, and it is a container of this kind. */
  predicate Inside(toks: seq<Token>, a: nat, kind: Kind) {
    && a < |toks| && toks[a].Open() && toks[a].kind == kind && (kind == Array || kind == Object)
    && forall j :: a < j < |toks| ==> !toks[j].Open()
  }

  lemma LastOpenIs(toks: seq<Token>, n: nat, a: int)
    requires -1 <= a < n <= |toks| && (a >= 0 ==> toks[a].Open()) && forall j :: a < j < n ==> !toks[j].Open()
    ensures LastOpen(toks, n) == a
  {
    hide LastOpen;
    var i := LastOpen(toks, n);
  }

  predicate AllClosed(toks: seq<Token>) { forall j :: 0 <= j < |toks| ==> !toks[j].Open() }

  lemma {:induction false} TokensClosed(v: Value, p: nat)
    ensures AllClosed(Tokens(v, p))
    decreases v
  {
    match v
    case Arr(gap, items) => ItemTokensClosed(items, true, p + 1 + |gap|);
    case Obj(gap, members) => MemberTokensClosed(members, true, p + 1 + |gap|);
    case _ =>
  }

  lemma {:induction false} ItemTokensClosed(items: Items, first: bool, p: nat)
    ensures AllClosed(ItemTokens(items, first, p))
    decreases items
  {
    hide Tokens, Print;
    match items
    case NoItems =>
    case Item(before, v, after, rest) =>
      var q := p + |Comma(first)| + |before|;
      TokensClosed(v, q);
      ItemTokensClosed(rest, false, q + |Print(v)| + |after|);
  }

  lemma {:induction false} MemberTokensClosed(ms: Members, first: bool, p: nat)
    ensures AllClosed(MemberTokens(ms, first, p))
    decreases ms
  {
    hide Tokens, Print;
    match ms
    case NoMembers =>
    case Member(before, key, bc, ac, v, after, rest) =>
      var q := p + |Comma(first)| + |before| + |Quoted(key)| + |bc| + 1 + |ac|;
      TokensClosed(v, q);
      MemberTokensClosed(rest, false, q + |Print(v)| + |after|);
  }

  /** Adding closed tokens and counting does not change what is open. */
  lemma InsideAfter(toks: seq<Token>, super: int, more: seq<Token>, a: nat, kind: Kind)
    requires Inside(toks, a, kind) && AllClosed(more)
    ensures Inside(After(toks, super, more), a, kind)
  {}

  // ----- values -----

  lemma {:induction false} RunValue(js: string, st: State, cap: int, n: nat, v: Value)
    requires Here(js, st.pos, Print(v)) && ValueOk(v) && st.Ok() && |st.toks| + |Tokens(v, st.pos)| <= cap
    requires v.Prim? ==> AtEnd(js, st.pos + |Print(v)|) || Delimiter(js[st.pos + |Print(v)|])
    ensures Reaches(js, cap, st, n, State(st.pos + |Print(v)|, SuperAfter(st, v),
            After(st.toks, st.toksuper, Tokens(v, st.pos))), n + |Tokens(v, st.pos)|)
    decreases v, 1
  {
    hide Run, Step, LastOpen, PrimitiveEnd, StringEnd;
    match v
    case Prim(text) => RunPrim(js, st, cap, n, text);
    case Str(body) => RunString(js, st, cap, n, body);
    case Arr(gap, items) => RunArray(js, st, cap, n, gap, items);
    case Obj(gap, members) => RunObject(js, st, cap, n, gap, members);
  }

  lemma RunArray(js: string, st: State, cap: int, n: nat, gap: string, items: Items)
    requires var v := Arr(gap, items); Here(js, st.pos, Print(v)) && ValueOk(v) && st.Ok()
                                       && |st.toks| + |Tokens(v, st.pos)| <= cap
    ensures var v := Arr(gap, items);
      Reaches(js, cap, st, n, State(st.pos + |Print(v)|, LastOpen(st.toks, |st.toks|),
              After(st.toks, st.toksuper, Tokens(v, st.pos))), n + |Tokens(v, st.pos)|)
    decreases Arr(gap, items), 0
  {
    hide Run, Step, LastOpen, Here, PrintItems, ItemTokens, Bump, BumpBy, Blanks, ItemsOk, Inside, AllClosed;
    var inner, a, p := PrintItems(items, true), |st.toks|, st.pos + 1 + |gap|;
    var more, size := ItemTokens(items, true, p), CountItems(items);
    RunOpen(js, st, cap, n, Array, gap, inner);
    RunItems(js, Opened(st, Array, gap), cap, n + 1, a, items, true);
    BumpLast(Bump(st.toks, st.toksuper), Token(Array, st.pos, -1, 0), size);
    ItemTokensClosed(items, true, p);
    RunClose(js, st, cap, n + 1 + |more|, Array, gap, inner, size, more, a);
  }

  lemma RunObject(js: string, st: State, cap: int, n: nat, gap: string, members: Members)
    requires var v := Obj(gap, members); Here(js, st.pos, Print(v)) && ValueOk(v) && st.Ok()
                                         && |st.toks| + |Tokens(v, st.pos)| <= cap
    ensures var v := Obj(gap, members);
      Reaches(js, cap, st, n, State(st.pos + |Print(v)|, LastOpen(st.toks, |st.toks|),
              After(st.toks, st.toksuper, Tokens(v, st.pos))), n + |Tokens(v, st.pos)|)
    decreases Obj(gap, members), 0
  {
    hide Run, Step, LastOpen, Here, PrintMembers, MemberTokens, Bump, BumpBy, Blanks, MembersOk, Inside, AllClosed;
    var inner, a, p := PrintMembers(members, true), |st.toks|, st.pos + 1 + |gap|;
    var more, size := MemberTokens(members, true, p), CountMembers(members);
    RunOpen(js, st, cap, n, Object, gap, inner);
    var last := RunMembers(js, Opened(st, Object, gap), cap, n + 1, a, members, true);
    BumpLast(Bump(st.toks, st.toksuper), Token(Object, st.pos, -1, 0), size);
    MemberTokensClosed(members, true, p);
    RunClose(js, st, cap, n + 1 + |more|, Object, gap, inner, size, more, last);
  }

  /** The state inside a container just opened, past its first gap. */
  function Opened(st: State, kind: Kind, gap: string): State {
    State(st.pos + 1 + |gap|, |st.toks|, Bump(st.toks, st.toksuper) + [Token(kind, st.pos, -1, 0)])
  }

  function Bracket(kind: Kind, open: bool): string {
    if kind == Object then (if open then "{" else "}") else (if open then "[" else "]")
  }

  lemma RunOpen(js: string, st: State, cap: int, n: nat, kind: Kind, gap: string, inner: string)
    requires (kind == Array || kind == Object) && Blanks(gap) && |st.toks| < cap
    requires Here(js, st.pos, Bracket(kind, true) + gap + inner + Bracket(kind, false))
    ensures Reaches(js, cap, st, n, Opened(st, kind, gap), n + 1)
    ensures Here(js, st.pos + 1 + |gap|, inner) && Here(js, st.pos + 1 + |gap| + |inner|, Bracket(kind, false))
    ensures Inside(Opened(st, kind, gap).toks, |st.toks|, kind) && Opened(st, kind, gap).Ok()
  {
    hide Run, LastOpen, Bump, Here;
    var o, c := Bracket(kind, true), Bracket(kind, false);
    HereSplit(js, st.pos, o + gap + inner, c);
    HereSplit(js, st.pos, o + gap, inner);
    HereSplit(js, st.pos, o, gap);
    HereAt(js, st.pos, o, 0);
    RunStep(js, st, cap, n);
    RunBlanks(js, State(st.pos + 1, |st.toks|, Bump(st.toks, st.toksuper) + [Token(kind, st.pos, -1, 0)]), cap,
              n + 1, gap);
  }

  /** The closing bracket, once the contents were counted into the container at index |st.toks|. */
  lemma RunClose(js: string, st: State, cap: int, n: nat, kind: Kind, gap: string, inner: string, size: nat,
                 more: seq<Token>, super: int)
    requires (kind == Array || kind == Object) && AllClosed(more) && st.Ok() && cap >= 0
    requires Here(js, st.pos, Bracket(kind, true) + gap + inner + Bracket(kind, false))
    ensures var len := 2 + |gap| + |inner|;
      Reaches(js, cap,
        State(st.pos + len - 1, super, Bump(st.toks, st.toksuper) + [Token(kind, st.pos, -1, size)] + more), n,
        State(st.pos + len, LastOpen(st.toks, |st.toks|),
              After(st.toks, st.toksuper, [Token(kind, st.pos, st.pos + len, size)] + more)), n)
  {
    hide Run, LastOpen, Here, Bump, CloseStep, AllClosed;
    var o, c := Bracket(kind, true), Bracket(kind, false);
    var q := st.pos + 1 + |gap| + |inner|;
    HereSplit(js, st.pos, o + gap + inner, c);
    HereAt(js, q, c, 0);
    var st1 := State(q, super, Bump(st.toks, st.toksuper) + [Token(kind, st.pos, -1, size)] + more);
    CloseStepIs(st, st1, kind, size, more, super);
    RunStep(js, st1, cap, n);
  }

  lemma CloseStepIs(st: State, st1: State, kind: Kind, size: nat, more: seq<Token>, super: int)
    requires AllClosed(more) && st.Ok() && st1 == State(st1.pos, super,
             Bump(st.toks, st.toksuper) + [Token(kind, st.pos, -1, size)] + more)
    ensures CloseStep(st1, kind)
         == Next(State(st1.pos + 1, LastOpen(st.toks, |st.toks|),
             After(st.toks, st.toksuper, [Token(kind, st.pos, st1.pos + 1, size)] + more)), false)
  {
    hide LastOpen;
    var base := Bump(st.toks, st.toksuper);
    var toks := st1.toks;
    LastOpenIs(toks, |toks|, |base|);
    var toks' := toks[|base| := Token(kind, st.pos, st1.pos + 1, size)];
    assert toks' == base + ([Token(kind, st.pos, st1.pos + 1, size)] + more);
    var i := LastOpen(st.toks, |st.toks|);
    LastOpenIs(toks', |base|, i);
  }

  // ----- contents of a container -----

  function BumpBy(toks: seq<Token>, i: nat, k: nat): (r: seq<Token>)
    ensures |r| == |toks|
  {
    if i < |toks| then toks[i := toks[i].(size := toks[i].size + k)] else toks
  }

  lemma BumpTwice(toks: seq<Token>, i: nat, k: nat, more: seq<Token>, last: seq<Token>)
    requires i < |toks|
    ensures BumpBy(Bump(toks, i) + more, i, k) + last == BumpBy(toks, i, k + 1) + (more + last)
  {}

  lemma BumpNone(toks: seq<Token>, i: nat)
    ensures BumpBy(toks, i, 0) + [] == toks
  {}

  /** The token of the container itself collects the count. */
  lemma BumpLast(base: seq<Token>, t: Token, k: nat)
    ensures BumpBy(base + [t], |base|, k) == base + [t.(size := t.size + k)]
  {}

  lemma LastContainerIs(toks: seq<Token>, a: nat, kind: Kind)
    requires Inside(toks, a, kind)
    ensures LastOpenContainer(toks, |toks|) == a && LastOpen(toks, |toks|) == a
  {
    hide LastOpenContainer, LastOpen;
    LastOpenIs(toks, |toks|, a);
    var i := LastOpenContainer(toks, |toks|);
  }

  lemma CommaInside(js: string, st: State, cap: int, n: nat, a: nat, kind: Kind)
    requires Here(js, st.pos, ",") && cap >= 0 && Inside(st.toks, a, kind) && 0 <= st.toksuper < |st.toks|
    requires st.toksuper == a || !st.toks[st.toksuper].Container()
    ensures Reaches(js, cap, st, n, st.(pos := st.pos + 1, toksuper := a), n)
  {
    hide Run, LastOpenContainer;
    HereAt(js, st.pos, ",", 0);
    LastContainerIs(st.toks, a, kind);
    RunStep(js, st, cap, n);
  }

  /** What follows a value inside a container ends a primitive. */
  predicate Ends(js: string, p: nat) { AtEnd(js, p) || Delimiter(js[p]) }

  lemma FollowedBy(js: string, p: nat, after: string)
    requires Here(js, p, after) && Blanks(after) && Ends(js, p + |after|)
    ensures Ends(js, p)
  {
    if after != [] { HereAt(js, p, after, 0); }
  }

  lemma {:induction false} RunItems(js: string, st: State, cap: int, n: nat, a: nat, items: Items, first: bool)
    requires Here(js, st.pos, PrintItems(items, first)) && Here(js, st.pos + |PrintItems(items, first)|, "]")
             && ItemsOk(items) && Inside(st.toks, a, Array) && st.toksuper == a
    requires |st.toks| + |ItemTokens(items, first, st.pos)| <= cap
    ensures Reaches(js, cap, st, n,
              State(st.pos + |PrintItems(items, first)|, a,
                    BumpBy(st.toks, a, CountItems(items)) + ItemTokens(items, first, st.pos)),
              n + |ItemTokens(items, first, st.pos)|)
    decreases items
  {
    hide Run, Step, LastOpen, Tokens, Print, Bump, BumpBy, After, Inside, ValueOk, Here, Blanks, PrintItems,
         ItemTokens, CountItems;
    match items
    case NoItems =>
      NoItemsPrint(first, st.pos);
      BumpNone(st.toks, a);
    case Item(before, v, after, rest) =>
      ItemPieces(js, st.pos, before, v, after, rest, first);
      ItemTokensAre(before, v, after, rest, first, st.pos);
      InsideBound(st.toks, a, Array);
      if !first {
        CommaInside(js, st, cap, n, a, Array);
      }
      var q := st.pos + |Comma(first)| + |before|;
      var st1 := st.(pos := st.pos + |Comma(first)|);
      RunBlanks(js, st1, cap, n, before);
      var st2 := st.(pos := q);
      RunValue(js, st2, cap, n, v);
      LastContainerIs(st.toks, a, Array);
      TokensClosed(v, q);
      var toks := After(st.toks, a, Tokens(v, q));
      InsideAfter(st.toks, a, Tokens(v, q), a, Array);
      var st3 := State(q + |Print(v)|, a, toks);
      RunBlanks(js, st3, cap, n + |Tokens(v, q)|, after);
      var st4 := st3.(pos := q + |Print(v)| + |after|);
      RunItems(js, st4, cap, n + |Tokens(v, q)|, a, rest, false);
      AfterIs(st.toks, a, Tokens(v, q));
      BumpTwice(st.toks, a, CountItems(rest), Tokens(v, q), ItemTokens(rest, false, st4.pos));
  }

  lemma NoItemsPrint(first: bool, p: nat)
    ensures PrintItems(NoItems, first) == "" && ItemTokens(NoItems, first, p) == [] && CountItems(NoItems) == 0
  {}

  lemma ItemTokensAre(before: string, v: Value, after: string, rest: Items, first: bool, p: nat)
    ensures var q := p + |Comma(first)| + |before|;
      var items := Item(before, v, after, rest);
      && ItemTokens(items, first, p) == Tokens(v, q) + ItemTokens(rest, false, q + |Print(v)| + |after|)
      && CountItems(items) == 1 + CountItems(rest)
      && p + |PrintItems(items, first)| == q + |Print(v)| + |after| + |PrintItems(rest, false)|
  {
    hide Tokens, Print;
  }

  lemma AfterIs(toks: seq<Token>, super: int, more: seq<Token>)
    ensures After(toks, super, more) == Bump(toks, super) + more
  {}

  lemma InsideBound(toks: seq<Token>, a: nat, kind: Kind)
    requires Inside(toks, a, kind)
    ensures a < |toks|
  {}

  lemma ItemPieces(js: string, p: nat, before: string, v: Value, after: string, rest: Items, first: bool)
    requires var s := PrintItems(Item(before, v, after, rest), first);
             Here(js, p, s) && Here(js, p + |s|, "]") && Blanks(after)
    ensures var q := p + |Comma(first)| + |before|;
      var t := q + |Print(v)| + |after|;
      && Here(js, p, Comma(first)) && Here(js, p + |Comma(first)|, before) && Here(js, q, Print(v))
      && Here(js, q + |Print(v)|, after) && Ends(js, q + |Print(v)|)
      && Here(js, t, PrintItems(rest, false)) && Here(js, t + |PrintItems(rest, false)|, "]")
  {
    hide Print, Here, Blanks, Comma, PrintItems, Ends;
    var s1 := Comma(first) + before;
    var s2 := s1 + Print(v);
    var s3 := s2 + after;
    ItemPrint(before, v, after, rest, first);
    Peel(js, p, s3, PrintItems(rest, false), p + |Comma(first)| + |before| + |Print(v)| + |after|);
    Peel(js, p, s2, after, p + |Comma(first)| + |before| + |Print(v)|);
    Peel(js, p, s1, Print(v), p + |Comma(first)| + |before|);
    HereSplit(js, p, Comma(first), before);
    ItemsDelimit(js, p + |Comma(first)| + |before| + |Print(v)| + |after|, rest);
    FollowedBy(js, p + |Comma(first)| + |before| + |Print(v)|, after);
  }

  lemma ItemPrint(before: string, v: Value, after: string, rest: Items, first: bool)
    ensures PrintItems(Item(before, v, after, rest), first) == Comma(first) + before + Print(v) + after
            + PrintItems(rest, false)
  {
    hide Print, Comma;
  }

  lemma Peel(js: string, p: nat, s: string, t: string, n: nat)
    requires Here(js, p, s + t) && n == p + |s|
    ensures Here(js, p, s) && Here(js, n, t)
  {
    hide Here;
    HereSplit(js, p, s, t);
  }

  lemma ItemsDelimit(js: string, p: nat, items: Items)
    requires Here(js, p, PrintItems(items, false)) && Here(js, p + |PrintItems(items, false)|, "]")
    ensures Ends(js, p)
  {
    hide Print, Here;
    match items
    case NoItems => HereAt(js, p, "]", 0);
    case Item(_, _, _, _) => HereAt(js, p, PrintItems(items, false), 0);
  }

  lemma {:induction false} RunMembers(js: string, st: State, cap: int, n: nat, a: nat, ms: Members,
                                      first: bool) returns (last: int)
    requires Here(js, st.pos, PrintMembers(ms, first)) && Here(js, st.pos + |PrintMembers(ms, first)|, "}")
             && MembersOk(ms) && Inside(st.toks, a, Object)
    requires 0 <= st.toksuper < |st.toks| && (st.toksuper == a || (!first && !st.toks[st.toksuper].Container()))
    requires |st.toks| + |MemberTokens(ms, first, st.pos)| <= cap
    ensures Reaches(js, cap, st, n,
              State(st.pos + |PrintMembers(ms, first)|, last,
                    BumpBy(st.toks, a, CountMembers(ms)) + MemberTokens(ms, first, st.pos)),
              n + |MemberTokens(ms, first, st.pos)|)
    decreases ms
  {
    hide Run, Step, LastOpen, Tokens, Print, Bump, BumpBy, After, Inside, ValueOk, PrintMembers, MemberTokens,
         CountMembers, BodyOk, Here, Blanks;
    match ms
    case NoMembers =>
      NoMembersPrint(first, st.pos);
      BumpNone(st.toks, a);
      last := st.toksuper;
    case Member(before, key, bc, ac, v, after, rest) =>
      MemberPieces(js, st.pos, before, key, bc, ac, v, after, rest, first);
      MemberTokensAre(before, key, bc, ac, v, after, rest, first, st.pos);
      InsideBound(st.toks, a, Object);
      if !first {
        CommaInside(js, st, cap, n, a, Object);
      }
      var k := st.pos + |Comma(first)| + |before|;
      RunBlanks(js, st.(pos := st.pos + |Comma(first)|, toksuper := a), cap, n, before);
      var q := k + |Quoted(key)| + |bc| + 1 + |ac|;
      var st1 := RunKey(js, st.(pos := k, toksuper := a), cap, n, a, key, bc, ac);
      RunValue(js, st1, cap, n + 1, v);
      TokensClosed(v, q);
      var toks := After(st1.toks, st1.toksuper, Tokens(v, q));
      LastContainerIs(st1.toks, a, Object);
      InsideAfter(st1.toks, st1.toksuper, Tokens(v, q), a, Object);
      KeyCounts(st.toks, a, Token(String, k + 1, k + 1 + |key|, 0), Tokens(v, q));
      var st3 := State(q + |Print(v)|, SuperAfter(st1, v), toks);
      RunBlanks(js, st3, cap, n + 1 + |Tokens(v, q)|, after);
      var st4 := st3.(pos := q + |Print(v)| + |after|);
      last := RunMembers(js, st4, cap, n + 1 + |Tokens(v, q)|, a, rest, false);
      BumpTwice(st.toks, a, CountMembers(rest), [Token(String, k + 1, k + 1 + |key|, 1)] + Tokens(v, q),
                MemberTokens(rest, false, st4.pos));
  }

  lemma NoMembersPrint(first: bool, p: nat)
    ensures PrintMembers(NoMembers, first) == "" && MemberTokens(NoMembers, first, p) == []
            && CountMembers(NoMembers) == 0
  {}

  lemma MemberTokensAre(before: string, key: string, bc: string, ac: string, v: Value, after: string, rest: Members,
                        first: bool, p: nat)
    ensures var k := p + |Comma(first)| + |before|;
      var q := k + |Quoted(key)| + |bc| + 1 + |ac|;
      var ms := Member(before, key, bc, ac, v, after, rest);
      && MemberTokens(ms, first, p)
           == [Token(String, k + 1, k + 1 + |key|, 1)] + Tokens(v, q)
               + MemberTokens(rest, false, q + |Print(v)| + |after|)
      && CountMembers(ms) == 1 + CountMembers(rest)
      && p + |PrintMembers(ms, first)| == q + |Print(v)| + |after| + |PrintMembers(rest, false)|
  {
    hide Tokens, Print;
  }

  /** The key token gets its value counted, the object its key. */
  lemma KeyCounts(toks: seq<Token>, a: nat, key: Token, more: seq<Token>)
    requires a < |toks|
    ensures After(Bump(toks, a) + [key], |toks|, more) == Bump(toks, a) + ([key.(size := key.size + 1)] + more)
    ensures |toks| < |After(Bump(toks, a) + [key], |toks|, more)|
    ensures After(Bump(toks, a) + [key], |toks|, more)[|toks|].kind == key.kind
  {}

  /** A key and its colon: the key becomes the superior token. */
  lemma RunKey(js: string, st: State, cap: int, n: nat, a: nat, key: string, bc: string,
               ac: string) returns (st': State)
    requires Inside(st.toks, a, Object) && st.toksuper == a && |st.toks| < cap && BodyOk(key) && Blanks(bc)
             && Blanks(ac)
    requires Here(js, st.pos, Quoted(key)) && Here(js, st.pos + |Quoted(key)|, bc)
    requires Here(js, st.pos + |Quoted(key)| + |bc|, ":") && Here(js, st.pos + |Quoted(key)| + |bc| + 1, ac)
    ensures st' == State(st.pos + |Quoted(key)| + |bc| + 1 + |ac|, |st.toks|,
            Bump(st.toks, a) + [Token(String, st.pos + 1, st.pos + 1 + |key|, 0)])
    ensures Reaches(js, cap, st, n, st', n + 1) && Inside(st'.toks, a, Object) && st'.Ok()
  {
    hide Run, LastOpen, Bump, BodyOk, StringEnd;
    RunString(js, st, cap, n, key);
    var t := Token(String, st.pos + 1, st.pos + 1 + |key|, 0);
    var toks := Bump(st.toks, a) + [t];
    InsideAfter(st.toks, a, [t], a, Object);
    var st1 := State(st.pos + |Quoted(key)|, a, toks);
    RunBlanks(js, st1, cap, n + 1, bc);
    var st2 := st1.(pos := st1.pos + |bc|);
    HereAt(js, st2.pos, ":", 0);
    RunStep(js, st2, cap, n + 1);
    var st3 := st2.(pos := st2.pos + 1, toksuper := |st.toks|);
    RunBlanks(js, st3, cap, n + 1, ac);
    st' := st3.(pos := st3.pos + |ac|);
  }

  lemma MemberPieces(js: string, p: nat, before: string, key: string, bc: string, ac: string, v: Value,
                     after: string, rest: Members, first: bool)
    requires var s := PrintMembers(Member(before, key, bc, ac, v, after, rest), first);
             Here(js, p, s) && Here(js, p + |s|, "}") && Blanks(after)
    ensures var k := p + |Comma(first)| + |before|;
      var q := k + |Quoted(key)| + |bc| + 1 + |ac|;
      var t := q + |Print(v)| + |after|;
      && Here(js, p, Comma(first)) && Here(js, p + |Comma(first)|, before) && Here(js, k, Quoted(key))
      && Here(js, k + |Quoted(key)|, bc)
      && Here(js, k + |Quoted(key)| + |bc|, ":") && Here(js, k + |Quoted(key)| + |bc| + 1, ac)
      && Here(js, q, Print(v)) && Here(js, q + |Print(v)|, after) && Ends(js, q + |Print(v)|)
      && Here(js, t, PrintMembers(rest, false)) && Here(js, t + |PrintMembers(rest, false)|, "}")
  {
    hide Print, Quoted, Here, Blanks, Comma, PrintMembers, Ends;
    MemberPrint(before, key, bc, ac, v, after, rest, first);
    var head := Comma(first) + before + Quoted(key) + bc;
    MemberRight(js, p, head, ac, Print(v), after, PrintMembers(rest, false));
    MemberLeft(js, p, Comma(first), before, Quoted(key), bc);
    var q := p + |Comma(first)| + |before| + |Quoted(key)| + |bc| + 1 + |ac|;
    MembersDelimit(js, q + |Print(v)| + |after|, rest);
    FollowedBy(js, q + |Print(v)|, after);
  }

  lemma MemberLeft(js: string, p: nat, a: string, b: string, c: string, d: string)
    requires Here(js, p, a + b + c + d)
    ensures Here(js, p, a) && Here(js, p + |a|, b) && Here(js, p + |a| + |b|, c) && Here(js, p + |a| + |b| + |c|, d)
  {
    hide Here;
    Peel(js, p, a + b + c, d, p + |a| + |b| + |c|);
    Peel(js, p, a + b, c, p + |a| + |b|);
    HereSplit(js, p, a, b);
  }

  lemma MemberRight(js: string, p: nat, head: string, ac: string, v: string, after: string, rest: string)
    requires Here(js, p, head + ":" + ac + v + after + rest)
    ensures Here(js, p, head) && Here(js, p + |head|, ":") && Here(js, p + |head| + 1, ac)
            && Here(js, p + |head| + 1 + |ac|, v)
    ensures Here(js, p + |head| + 1 + |ac| + |v|, after) && Here(js, p + |head| + 1 + |ac| + |v| + |after|, rest)
  {
    hide Here;
    Peel(js, p, head + ":" + ac + v + after, rest, p + |head| + 1 + |ac| + |v| + |after|);
    MemberLeft(js, p, head + ":", ac, v, after);
    HereSplit(js, p, head, ":");
  }

  lemma MemberPrint(before: string, key: string, bc: string, ac: string, v: Value, after: string, rest: Members,
                    first: bool)
    ensures PrintMembers(Member(before, key, bc, ac, v, after, rest), first)
         == Comma(first) + before + Quoted(key) + bc + ":" + ac + Print(v) + after + PrintMembers(rest, false)
  {
    hide Print, Quoted, Comma;
  }

  lemma MembersDelimit(js: string, p: nat, ms: Members)
    requires Here(js, p, PrintMembers(ms, false)) && Here(js, p + |PrintMembers(ms, false)|, "}")
    ensures Ends(js, p)
  {
    hide Print, Quoted, Here;
    match ms
    case NoMembers => HereAt(js, p, "}", 0);
    case Member(_, _, _, _, _, _, _) => HereAt(js, p, PrintMembers(ms, false), 0);
  }

  // ----- the whole text -----

  /** For every tree, printed with any white space and given enough slots, the tokenizer returns the
      number of the tree's tokens and fills in exactly its preorder. */
  lemma ParsePrinted(before: string, v: Value, after: string, cap: nat)
    requires Blanks(before) && ValueOk(v) && Blanks(after) && |Tokens(v, |before|)| <= cap
    ensures var js := before + Print(v) + after;
      Run(js, START, cap, 0) == Result(Done(|Tokens(v, |before|)|), State(|js|, -1, Tokens(v, |before|)))
  {
    hide Tokens, Print, Step, LastOpen, ValueOk, Here, Blanks, After;
    var js := before + Print(v) + after;
    ThreeParts(before, Print(v), after);
    RunBlanks(js, START, cap, 0, before);
    var st := START.(pos := |before|);
    BlankEnds(js, |before| + |Print(v)|, after);
    RunValue(js, st, cap, 0, v);
    var t := Tokens(v, |before|);
    NothingOpen();
    AfterNothing(t);
    var st2 := State(|before| + |Print(v)|, -1, t);
    RunBlanks(js, st2, cap, |t|, after);
    TokensClosed(v, |before|);
    LastOpenIs(t, |t|, -1);
  }

  lemma ThreeParts(a: string, b: string, c: string)
    ensures var js := a + b + c;
      Here(js, 0, a) && Here(js, |a|, b) && Here(js, |a| + |b|, c)
  {}

  lemma BlankEnds(js: string, p: nat, s: string)
    requires Here(js, p, s) && Blanks(s) && |js| == p + |s|
    ensures Ends(js, p)
  {
    if s != [] { HereAt(js, p, s, 0); }
  }

  lemma NothingOpen()
    ensures LastOpen([], 0) == -1
  {}

  lemma AfterNothing(t: seq<Token>)
    ensures After([], -1, t) == t
  {}
}
