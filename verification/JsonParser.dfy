/** The tokenizer itself: a parser object and a token array updated in place. */
module JsonParser {
  import opened Json

  const NOMEM := -1
  const INVAL := -2
  const PART := -3

  function Code(why: Outcome): int
  {
    match why
    case Done(n) => n
    case NoMem => NOMEM
    case Inval => INVAL
    case Part => PART
    case Wild => -4
  }

  /** The capacity a run sees: negative without a token array. */
  function Cap(tokens: array?<Token>, num: nat): int { if tokens == null then -1 else num }

  /** A quote, or a character no other case of the switch names. */
  predicate LeafStart(c: char) { c != '{' && c != '[' && !Delimiter(c) }

  class Parser {
    var pos: nat
    var toknext: nat
    var toksuper: int

    /** json_init. */
    constructor ()
      ensures pos == 0 && toknext == 0 && toksuper == -1
      ensures forall tokens: array?<Token> :: Now(tokens) == START
    {
      pos, toknext, toksuper := 0, 0, -1;
    }

    /** The parser fits the token array; without one nothing was allocated. */
    predicate Fits(tokens: array?<Token>, num: nat)
      reads this
    {
      && -1 <= toksuper < toknext
      && (if tokens == null then toknext == 0 else toknext <= tokens.Length && num <= tokens.Length)
    }

    function Now(tokens: array?<Token>): State
      reads this, tokens
    {
      State(pos, toksuper, if tokens == null || toknext > tokens.Length then [] else tokens[..toknext])
    }

    /** The tokens not allocated yet. */
    function Rest(tokens: array?<Token>, from: nat): seq<Token>
      reads tokens
    {
      if tokens == null || from > tokens.Length then [] else tokens[from..]
    }

    /** json_alloc_token; -1 for NULL. */
    method AllocToken(tokens: array<Token>, num: nat) returns (i: int)
      requires Fits(tokens, num)
      modifies `toknext, tokens
      ensures i == if old(toknext) >= num then -1 else old(toknext)
      ensures toknext == old(toknext) + if i < 0 then 0 else 1
      ensures forall j :: 0 <= j < tokens.Length ==> tokens[j] == if j == i
              then old(tokens[j]).(start := -1, end := -1, size := 0) else old(tokens[j])
    {
      if toknext >= num {
        return -1;
      }
      i := toknext;
      toknext := toknext + 1;
      tokens[i] := tokens[i].(start := -1, end := -1);
      tokens[i] := tokens[i].(size := 0);
    }

    /** The loop of json_parse_primitive: leaves pos behind the primitive, or back at its start. */
    method SkipPrimitive(js: string) returns (r: int)
      requires pos < |js| && !AtEnd(js, pos) && !Delimiter(js[pos])
      modifies `pos
      ensures r == if PrimitiveEnd(js, old(pos)).Found? then 0 else INVAL
      ensures pos == if r == 0 then PrimitiveEnd(js, old(pos)).end else old(pos)
      ensures r == 0 ==> pos > old(pos)
    {
      var start := pos;
      while pos < |js| && js[pos] != '\0' && !Delimiter(js[pos])
        invariant start <= pos && PrimitiveEnd(js, pos) == PrimitiveEnd(js, start)
        invariant pos == start ==> pos < |js| && !AtEnd(js, pos) && !Delimiter(js[pos])
        decreases |js| - pos
      {
        if js[pos] as int < 32 || js[pos] as int >= 127 {
          pos := start;
          return INVAL;
        }
        pos := pos + 1;
      }
      return 0;
    }

    /** The inner loop of json_parse_string: past at most four hexadecimal digits. */
    method SkipHex(js: string) returns (ok: bool)
      modifies `pos
      ensures var h := HexEnd(js, old(pos), 4); ok == h.Found? && (ok ==> pos == h.end)
    {
      var i := 0;
      while i < 4 && pos < |js| && js[pos] != '\0'
        invariant 0 <= i <= 4 && old(pos) <= pos && HexEnd(js, pos, 4 - i) == HexEnd(js, old(pos), 4)
      {
        if !Hex(js[pos]) {
          return false;
        }
        pos := pos + 1;
        i := i + 1;
      }
      return true;
    }

    /** The loop of json_parse_string: leaves pos on the closing quote, or back at the start. */
    method SkipString(js: string) returns (r: int)
      requires pos < |js|
      modifies `pos
      ensures r == match StringEnd(js, old(pos) + 1) case Found(_) => 0 case Bad => INVAL case Cut => PART
      ensures pos == if r == 0 then StringEnd(js, old(pos) + 1).end else old(pos)
    {
      hide HexEnd;
      var start := pos;
      pos := pos + 1;
      while pos < |js| && js[pos] != '\0'
        invariant start < pos && StringEnd(js, pos) == StringEnd(js, start + 1)
        decreases |js| - pos
      {
        var c := js[pos];
        if c == '\"' {
          return 0;
        }
        if c == '\\' && pos + 1 < |js| {
          pos := pos + 1;
          if Escape(js[pos]) {
          } else if js[pos] == 'u' {
            pos := pos + 1;
            var digits := SkipHex(js);
            if !digits {
              pos := start;
              return INVAL;
            }
            pos := pos - 1;
          } else {
            pos := start;
            return INVAL;
          }
        }
        pos := pos + 1;
      }
      pos := start;
      return PART;
    }

    /** Allocates and fills a token, if there is an array. */
    method TakeToken(tokens: array?<Token>, num: nat, t: Token) returns (r: int)
      requires Fits(tokens, num)
      modifies `toknext, tokens
      ensures Fits(tokens, num) && r == if tokens != null && old(toknext) >= num then NOMEM else 0
      ensures Now(tokens).toks == old(Now(tokens)).toks + if r == 0 && tokens != null then [t] else []
      ensures Rest(tokens, toknext) == if r == 0 && tokens != null then old(Rest(tokens, toknext))[1..]
              else old(Rest(tokens, toknext))
    {
      if tokens == null {
        return 0;
      }
      var i := AllocToken(tokens, num);
      if i < 0 {
        return NOMEM;
      }
      tokens[i] := t;
      return 0;
    }

    /** json_parse_primitive: on success pos is left on the last character. */
    method ParsePrimitive(js: string, tokens: array?<Token>, num: nat) returns (r: int)
      requires Fits(tokens, num) && pos < |js| && !AtEnd(js, pos) && !Delimiter(js[pos])
      modifies `pos, `toknext, tokens
      ensures Fits(tokens, num)
      ensures r == if PrimitiveEnd(js, old(pos)).Bad? then INVAL else if tokens != null
              && old(toknext) >= num then NOMEM else 0
      ensures r < 0 ==> Now(tokens) == old(Now(tokens)) && Rest(tokens, toknext) == old(Rest(tokens, toknext))
      ensures r == 0 ==>
                var q := PrimitiveEnd(js, old(pos)).end;
                Taken(tokens, old(Now(tokens)), old(Rest(tokens, toknext)), Token(Primitive, old(pos), q, 0), q - 1)
    {
      hide PrimitiveEnd;
      var start := pos;
      r := SkipPrimitive(js);
      if r < 0 {
        return;
      }
      r := TakeToken(tokens, num, Token(Primitive, start, pos, 0));
      if r < 0 {
        pos := start;
      } else {
        pos := pos - 1;
      }
    }

    /** json_parse_string: on success pos is left on the closing quote. */
    method ParseString(js: string, tokens: array?<Token>, num: nat) returns (r: int)
      requires Fits(tokens, num) && pos < |js|
      modifies `pos, `toknext, tokens
      ensures Fits(tokens, num)
      ensures r == match StringEnd(js, old(pos) + 1) case Bad => INVAL case Cut => PART case Found(_) => if tokens
              != null && old(toknext) >= num then NOMEM else 0
      ensures r < 0 ==> Now(tokens) == old(Now(tokens)) && Rest(tokens, toknext) == old(Rest(tokens, toknext))
      ensures r == 0 ==>
                var q := StringEnd(js, old(pos) + 1).end;
                Taken(tokens, old(Now(tokens)), old(Rest(tokens, toknext)), Token(String, old(pos) + 1, q, 0), q)
    {
      hide StringEnd;
      var start := pos;
      r := SkipString(js);
      if r < 0 {
        return;
      }
      r := TakeToken(tokens, num, Token(String, start + 1, pos, 0));
      if r < 0 {
        pos := start;
      }
    }

    /** A token was allocated, if there is an array, and pos moved. */
    ghost predicate Taken(tokens: array?<Token>, was: State, rest: seq<Token>, t: Token, at: int)
      reads this, tokens
    {
      && pos == at && Now(tokens) == was.(pos := pos, toks := was.toks + if tokens == null then [] else [t])
      && Rest(tokens, toknext) == Rest0(rest, if tokens == null then 0 else 1)
    }

    /** tokens[toksuper].size++, where there is a superior token. */
    method CountInSuper(tokens: array<Token>)
      requires 0 <= toksuper < toknext <= tokens.Length
      modifies tokens
      ensures Now(tokens) == old(Now(tokens)).(toks := Bump(old(Now(tokens)).toks, toksuper))
      ensures Rest(tokens, toknext) == old(Rest(tokens, toknext))
    {
      tokens[toksuper] := tokens[toksuper].(size := tokens[toksuper].size + 1);
    }

    /** A bracket opens. */
    method OpenContainer(kind: Kind, tokens: array<Token>, num: nat) returns (r: int)
      requires Fits(tokens, num)
      modifies `toknext, `toksuper, tokens
      ensures Fits(tokens, num) && toknext == old(toknext) + if r < 0 then 0 else 1
      ensures var s := OpenStep(old(Now(tokens)), num, kind);
        if r < 0 then r == NOMEM && s == Stop(NoMem) && Now(tokens) == old(Now(tokens))
        else r == 0 && s == Next(Now(tokens).(pos := pos + 1), true)
      ensures Rest(tokens, toknext) == Rest0(old(Rest(tokens, toknext)), toknext - old(toknext))
    {
      hide Bump;
      ghost var was := Now(tokens);
      r := TakeToken(tokens, num, Token(kind, pos, -1, 0));
      if r < 0 {
        return;
      }
      CountNew(tokens, was);
      toksuper := toknext - 1;
      return 0;
    }

    /** The searches of json_parse for the last open token before index n; -1 if there is none. */
    method FindOpen(tokens: array<Token>, n: nat) returns (i: int)
      requires n <= toknext <= tokens.Length
      ensures i == LastOpen(tokens[..toknext], n)
    {
      hide LastOpen;
      ghost var toks := tokens[..toknext];
      i := n - 1;
      while i >= 0 && !(tokens[i].start != -1 && tokens[i].end == -1)
        invariant -1 <= i < n && LastOpen(toks, n) == LastOpen(toks, i + 1)
      {
        LastOpenNext(toks, i + 1);
        i := i - 1;
      }
      LastOpenNext(toks, i + 1);
    }

    /** A bracket closes: the last open token must be of its kind. */
    method CloseContainer(kind: Kind, tokens: array<Token>) returns (r: int)
      requires Fits(tokens, tokens.Length)
      modifies `toksuper, tokens
      ensures Fits(tokens, tokens.Length) && Rest(tokens, toknext) == old(Rest(tokens, toknext))
      ensures var s := CloseStep(old(Now(tokens)), kind);
        if r < 0 then r == INVAL && s == Stop(Inval) && Now(tokens) == old(Now(tokens))
        else r == 0 && s == Next(Now(tokens).(pos := pos + 1), false)
    {
      hide LastOpen;
      var i := FindOpen(tokens, toknext);
      if i == -1 {
        return INVAL;
      }
      if tokens[i].kind != kind {
        return INVAL;
      }
      toksuper := -1;
      tokens[i] := tokens[i].(end := pos + 1);
      toksuper := FindOpen(tokens, i);
      return 0;
    }

    /** A comma: the innermost open container becomes the superior token again. */
    method Comma(tokens: array<Token>)
      requires Fits(tokens, tokens.Length) && toksuper >= 0
      modifies `toksuper
      ensures Fits(tokens, tokens.Length) && CommaStep(old(Now(tokens))) == Next(Now(tokens).(pos := pos + 1), false)
    {
      ghost var toks := tokens[..toknext];
      if tokens[toksuper].kind != Array && tokens[toksuper].kind != Object {
        var i := toknext - 1;
        while i >= 0
          invariant -1 <= i < toknext && toksuper == old(toksuper)
          invariant LastOpenContainer(toks, |toks|) == LastOpenContainer(toks, i + 1)
        {
          if tokens[i].kind == Array || tokens[i].kind == Object {
            if tokens[i].start != -1 && tokens[i].end == -1 {
              toksuper := i;
              break;
            }
          }
          i := i - 1;
        }
      }
    }

    /** The two cases of json_parse that read a leaf. */
    method LeafRound(js: string, tokens: array?<Token>, num: nat) returns (r: int)
      requires Fits(tokens, num) && pos < |js| && js[pos] != '\0' && LeafStart(js[pos])
      modifies this, tokens
      ensures Fits(tokens, num) && old(toknext) <= toknext
      ensures var s := Step(js, old(Now(tokens)), Cap(tokens, num));
        if r < 0 then s.Stop? && Code(s.why) == r && Now(tokens) == old(Now(tokens))
            else s == Next(Now(tokens).(pos := pos + 1), true)
      ensures Rest(tokens, toknext) == Rest0(old(Rest(tokens, toknext)), toknext - old(toknext))
    {
      hide LastOpen, LastOpenContainer, PrimitiveEnd, StringEnd, Bump, CloseStep, CommaStep;
      if js[pos] == '\"' {
        r := ParseString(js, tokens, num);
      } else {
        r := ParsePrimitive(js, tokens, num);
      }
      if r >= 0 {
        CountNew(tokens, old(Now(tokens)));
      }
    }

    /** One round of json_parse, without the final advance of pos: an error code, or whether it counts. */
    method Round(js: string, tokens: array?<Token>, num: nat) returns (r: int, counted: bool)
      requires Fits(tokens, num) && pos < |js| && js[pos] != '\0'
      requires Step(js, Now(tokens), Cap(tokens, num)) != Stop(Wild)
      modifies this, tokens
      ensures Fits(tokens, num) && old(toknext) <= toknext
      ensures var s := Step(js, old(Now(tokens)), Cap(tokens, num));
        if r < 0 then s.Stop? && Code(s.why) == r && Now(tokens) == old(Now(tokens))
            else s == Next(Now(tokens).(pos := pos + 1), counted)
      ensures Rest(tokens, toknext) == Rest0(old(Rest(tokens, toknext)), toknext - old(toknext))
    {
      hide LastOpen, LastOpenContainer, PrimitiveEnd, StringEnd, Bump, CloseStep, CommaStep, LeafStep, OpenStep, Rest0;
      NoneTaken(Rest(tokens, toknext));
      r, counted := 0, false;
      var c := js[pos];
      if LeafStart(c) {
        counted := true;
        r := LeafRound(js, tokens, num);
      } else if c == '{' || c == '[' {
        counted := true;
        if tokens != null {
          r := OpenContainer(if c == '{' then Object else Array, tokens, num);
        }
      } else if c == '}' || c == ']' {
        if tokens != null {
          r := CloseContainer(if c == '}' then Object else Array, tokens);
        }
      } else if c == ':' {
        toksuper := toknext - 1;
      } else if c == ',' {
        if tokens != null {
          CommaIsSafe(Now(tokens));
          Comma(tokens);
        }
      }
    }

    /** A new token adds to the size of the superior token. */
    method CountNew(tokens: array?<Token>, ghost was: State)
      requires Fits(tokens, if tokens == null then 0 else tokens.Length)
      requires toksuper == was.toksuper && (tokens != null ==>
               toksuper < |was.toks| == toknext - 1 && was.toks == tokens[..toknext - 1])
      modifies tokens
      ensures pos == old(pos) && Now(tokens) == old(Now(tokens)).(toks := if tokens == null then []
              else Bump(was.toks, toksuper) + [old(Now(tokens)).toks[|was.toks|]])
      ensures Rest(tokens, toknext) == old(Rest(tokens, toknext))
    {
      hide Bump;
      if tokens != null {
        ghost var t := tokens[toknext - 1];
        assert tokens[..toknext] == was.toks + [t];
        BumpPrefix(was.toks, t, toksuper);
        NoSuper(was.toks);
        if toksuper != -1 {
          CountInSuper(tokens);
        }
      }
    }

    lemma NoSuper(toks: seq<Token>)
      ensures Bump(toks, -1) == toks
    {}

    /** json_parse. tokens null is the dry run. wild tells that the code has come to a comma without a superior
        token, where it reads in front of the token array; what it does from there on is not modelled. */
    method Parse(js: string, tokens: array?<Token>, num: nat) returns (r: int, wild: bool)
      requires Fits(tokens, num)
      modifies this, tokens
      ensures Fits(tokens, num)
      ensures var run := Run(js, old(Now(tokens)), Cap(tokens, num), 0);
        (wild <==> run.out == Wild) && (!wild ==> r == Code(run.out)) && Now(tokens) == run.st
      ensures old(toknext) <= toknext && Rest(tokens, toknext)
              == Rest0(old(Rest(tokens, toknext)), toknext - old(toknext))
    {
      hide Step, LastOpen, Run, Rest, Rest0;
      NoneTaken(Rest(tokens, toknext));
      ghost var st0 := Now(tokens);
      ghost var cap := Cap(tokens, num);
      var count := 0;
      while pos < |js| && js[pos] != '\0'
        invariant Fits(tokens, num) && Run(js, st0, cap, 0) == Run(js, Now(tokens), cap, count)
        invariant old(toknext) <= toknext && Rest(tokens, toknext)
                  == Rest0(old(Rest(tokens, toknext)), toknext - old(toknext))
        decreases |js| - pos
      {
        RunUnfolds(js, Now(tokens), cap, count);
        if tokens != null {
          WildComma(js, Now(tokens), cap);
          if js[pos] == ',' && toksuper == -1 {
            return 0, true;
          }
        } else {
          DryIsTame(js, Now(tokens));
        }
        ghost var rest, n := Rest(tokens, toknext), toknext;
        var counted;
        r, counted := Round(js, tokens, num);
        RestTwice(old(Rest(tokens, toknext)), n - old(toknext), toknext - n);
        if r < 0 {
          return r, false;
        }
        if counted {
          count := count + 1;
        }
        pos := pos + 1;
      }
      RunEnds(js, Now(tokens), cap, count);
      var unclosed := AnyOpen(tokens);
      return if unclosed then PART else count, false;
    }

    /** The last loop of json_parse: is an object or array still open? */
    method AnyOpen(tokens: array?<Token>) returns (r: bool)
      requires if tokens == null then toknext == 0 else toknext <= tokens.Length
      ensures r <==> LastOpen(Now(tokens).toks, |Now(tokens).toks|) >= 0
    {
      hide LastOpen;
      if tokens == null {
        NoTokens();
        return false;
      }
      var i := FindOpen(tokens, toknext);
      return i >= 0;
    }
  }

  lemma DryIsTame(js: string, st: State)
    requires st.pos < |js|
    ensures Step(js, st, -1) != Stop(Wild)
  {
    hide PrimitiveEnd, StringEnd;
  }

  lemma NoTokens()
    ensures LastOpen([], 0) == -1
  {}

  lemma CommaIsSafe(st: State)
    requires CommaStep(st) != Stop(Wild)
    ensures st.toksuper >= 0
  {
    hide LastOpenContainer;
  }

  lemma RestTwice(r: seq<Token>, m: nat, n: nat)
    ensures Rest0(Rest0(r, m), n) == Rest0(r, m + n)
  {}

  lemma NoneTaken(r: seq<Token>)
    ensures Rest0(r, 0) == r
  {}

  lemma LastOpenNext(toks: seq<Token>, n: nat)
    requires n <= |toks|
    ensures LastOpen(toks, n) == if n == 0 then -1 else if toks[n - 1].Open() then n - 1 else LastOpen(toks, n - 1)
  {}

  /** What is left of the unused tokens after n of them were taken. */
  function Rest0(rest: seq<Token>, n: nat): seq<Token> { if n <= |rest| then rest[n..] else [] }
}
