/**
  The command parser of sh.c.  A parsed command keeps, for every argument and file name, the
  start and end of its token in the line buffer; nulterminate() then cuts the buffer up in place.

  The reference is the grammar itself: Line, Pipeline and Element below are its derivations,
  Yield gives the tokens a derivation stands for and Command the tree it denotes.
 */
module Shell {
  import opened Common

  const MAXARGS: nat := 10
  const WHITESPACE: string := [' ', '\t', '\r', '\n', 11 as char]
  const SYMBOLS: string := "<|>&;()"

  const O_RDONLY: nat := 0
  const O_CREATE_WRONLY: nat := 0x201

  /** A token of the line: line[q..eq]. */
  datatype Span = Span(q: nat, eq: nat)

  datatype Token = Sym(c: char) | Append | Word(w: Span)

  datatype Cmd =
    | Exec(argv: seq<Span>)
    | Redir(cmd: Cmd, file: Span, mode: nat, fd: nat)
    | Pipe(left: Cmd, right: Cmd)
    | List(left: Cmd, right: Cmd)
    | Back(cmd: Cmd)

  // --------------------------------------------------------------- the grammar

  datatype Redirect = Redirect(op: Token, file: Span)
  datatype Item = Arg(w: Span) | Red(r: Redirect)
  datatype Line = Line(first: Pipeline, amps: nat, next: Option<Line>)
  datatype Pipeline = Single(e: Element) | Piped(e: Element, rest: Pipeline)
  datatype Element = Simple(items: seq<Item>) | Block(body: Line, redirects: seq<Redirect>)

  function ItemYield(i: Item): (r: seq<Token>) {
    match i
    case Arg(w) => [Word(w)]
    case Red(r) => [r.op, Word(r.file)]
  }

  function ItemsYield(items: seq<Item>): (r: seq<Token>) {
    if items == [] then [] else ItemYield(items[0]) + ItemsYield(items[1..])
  }

  function AsItems(rs: seq<Redirect>): (r: seq<Item>) {
    seq(|rs|, i requires 0 <= i < |rs| => Red(rs[i]))
  }

  function Amps(n: nat): (r: seq<Token>) {
    seq(n, i => Sym('&'))
  }

  function LineYield(l: Line): (r: seq<Token>) {
    PipelineYield(l.first) + Amps(l.amps) + if l.next.Some? then [Sym(';')] + LineYield(l.next.value) else []
  }

  function PipelineYield(p: Pipeline): (r: seq<Token>) {
    match p
    case Single(e) => ElementYield(e)
    case Piped(e, rest) => ElementYield(e) + [Sym('|')] + PipelineYield(rest)
  }

  function ElementYield(e: Element): (r: seq<Token>) {
    match e
    case Simple(items) => ItemsYield(items)
    case Block(body, rs) => [Sym('(')] + LineYield(body) + [Sym(')')] + ItemsYield(AsItems(rs))
  }

  predicate IsRedirect(t: Token) {
    t == Sym('<') || t == Sym('>') || t == Append
  }

  /** The operators that end a simple command. */
  predicate Ends(t: Token) {
    t == Sym('|') || t == Sym(')') || t == Sym('&') || t == Sym(';')
  }

  ghost predicate Ops(items: seq<Item>) {
    forall i :: 0 <= i < |items| && items[i].Red? ==> IsRedirect(items[i].r.op)
  }

  /** A derivation whose simple commands have fewer than MAXARGS arguments. */
  ghost predicate WfLine(l: Line) {
    WfPipeline(l.first) && (l.next.Some? ==> WfLine(l.next.value))
  }

  ghost predicate WfPipeline(p: Pipeline) {
    match p
    case Single(e) => WfElement(e)
    case Piped(e, rest) => WfElement(e) && WfPipeline(rest)
  }

  ghost predicate WfElement(e: Element) {
    match e
    case Simple(items) => Ops(items) && |Args(items)| < MAXARGS
    case Block(body, rs) => WfLine(body) && Ops(AsItems(rs))
  }

  // --------------------------------------------------------------- the tree a derivation denotes

  function Args(items: seq<Item>): (r: seq<Span>) {
    if items == [] then []
    else (if items[0].Arg? then [items[0].w] else []) + Args(items[1..])
  }

  /** redircmd() for one redirection; '>>' opens the file exactly as '>' does. */
  function Redirected(c: Cmd, r: Redirect): Cmd {
    if r.op == Sym('<') then Redir(c, r.file, O_RDONLY, 0) else Redir(c, r.file, O_CREATE_WRONLY, 1)
  }

  /** Each later redirection wraps the command so far. */
  function Wrapped(c: Cmd, items: seq<Item>): (r: Cmd)
    decreases |items|
  {
    if items == [] then c
    else Wrapped(if items[0].Red? then Redirected(c, items[0].r) else c, items[1..])
  }

  function Backed(c: Cmd, n: nat): (r: Cmd) {
    if n == 0 then c else Back(Backed(c, n - 1))
  }

  function LineCommand(l: Line): (r: Cmd) {
    var c := Backed(PipelineCommand(l.first), l.amps);
    if l.next.Some? then List(c, LineCommand(l.next.value)) else c
  }

  function PipelineCommand(p: Pipeline): (r: Cmd) {
    match p
    case Single(e) => ElementCommand(e)
    case Piped(e, rest) => Pipe(ElementCommand(e), PipelineCommand(rest))
  }

  function ElementCommand(e: Element): (r: Cmd) {
    match e
    case Simple(items) => Wrapped(Exec(Args(items)), items)
    case Block(body, rs) => Wrapped(LineCommand(body), AsItems(rs))
  }

  // --------------------------------------------------------------- recursive descent on tokens

  datatype Parsed<+T> = Fail | Ok(value: T, rest: seq<Token>)

  function Redirects(ts: seq<Token>): (r: Parsed<seq<Redirect>>)
    ensures r.Ok? ==> |r.rest| <= |ts|
  {
    if ts == [] || !IsRedirect(ts[0]) then Ok([], ts)
    else if |ts| < 2 || !ts[1].Word? then Fail
    else
      match Redirects(ts[2..])
      case Fail => Fail
      case Ok(rs, rest) => Ok([Redirect(ts[0], ts[1].w)] + rs, rest)
  }

  /** The arguments of a simple command, n of which are already there, and the redirections after each. */
  function Arguments(ts: seq<Token>, n: nat): (r: Parsed<seq<Item>>)
    ensures r.Ok? ==> |r.rest| <= |ts|
    decreases |ts|
  {
    if ts == [] || Ends(ts[0]) then Ok([], ts)
    else if !ts[0].Word? || n + 1 >= MAXARGS then Fail
    else
      match Redirects(ts[1..])
      case Fail => Fail
      case Ok(rs, rest) =>
        match Arguments(rest, n + 1)
        case Fail => Fail
        case Ok(items, rest') => Ok([Arg(ts[0].w)] + AsItems(rs) + items, rest')
  }

  function ParseElement(ts: seq<Token>): (r: Parsed<Element>)
    ensures r.Ok? ==> |r.rest| <= |ts|
    decreases |ts|, 0
  {
    if ts != [] && ts[0] == Sym('(') then
      match ParseLineTokens(ts[1..])
      case Fail => Fail
      case Ok(l, rest) =>
        if rest == [] || rest[0] != Sym(')') then Fail
        else
          match Redirects(rest[1..])
          case Fail => Fail
          case Ok(rs, rest') => Ok(Block(l, rs), rest')
    else
      match Redirects(ts)
      case Fail => Fail
      case Ok(rs, rest) =>
        match Arguments(rest, 0)
        case Fail => Fail
        case Ok(items, rest') => Ok(Simple(AsItems(rs) + items), rest')
  }

  function ParsePipeline(ts: seq<Token>): (r: Parsed<Pipeline>)
    ensures r.Ok? ==> |r.rest| <= |ts|
    decreases |ts|, 1
  {
    match ParseElement(ts)
    case Fail => Fail
    case Ok(e, rest) =>
      if rest == [] || rest[0] != Sym('|') then Ok(Single(e), rest)
      else
        match ParsePipeline(rest[1..])
        case Fail => Fail
        case Ok(p, rest') => Ok(Piped(e, p), rest')
  }

  /** The number of leading '&' tokens. */
  function CountAmps(ts: seq<Token>): (n: nat)
    ensures n <= |ts|
  {
    if ts == [] || ts[0] != Sym('&') then 0 else 1 + CountAmps(ts[1..])
  }

  function ParseLineTokens(ts: seq<Token>): (r: Parsed<Line>)
    ensures r.Ok? ==> |r.rest| <= |ts|
    decreases |ts|, 2
  {
    match ParsePipeline(ts)
    case Fail => Fail
    case Ok(p, rest) =>
      var n := CountAmps(rest);
      var rest' := rest[n..];
      if rest' == [] || rest'[0] != Sym(';') then Ok(Line(p, n, None), rest')
      else
        match ParseLineTokens(rest'[1..])
        case Fail => Fail
        case Ok(l, rest'') => Ok(Line(p, n, Some(l)), rest'')
  }

  // --------------------------------------------------------------- tokens of a line

  predicate IsSpace(c: char) {
    c in WHITESPACE
  }

  predicate IsSymbol(c: char) {
    c in SYMBOLS
  }

  predicate IsWordChar(c: char) {
    !IsSpace(c) && !IsSymbol(c)
  }

  function SkipSpace(s: string, i: nat): (j: nat)
    requires i <= |s|
    ensures i <= j <= |s| && (j < |s| ==> !IsSpace(s[j]))
    ensures forall k :: i <= k < j ==> IsSpace(s[k])
    decreases |s| - i
  {
    if i < |s| && IsSpace(s[i]) then SkipSpace(s, i + 1) else i
  }

  function WordEnd(s: string, i: nat): (j: nat)
    requires i <= |s|
    ensures i <= j <= |s| && (j < |s| ==> !IsWordChar(s[j]))
    ensures i < |s| && IsWordChar(s[i]) ==> i < j
    ensures forall k :: i <= k < j ==> IsWordChar(s[k])
    decreases |s| - i
  {
    if i < |s| && IsWordChar(s[i]) then WordEnd(s, i + 1) else i
  }

  /** The token at position i, which is past any white space. */
  function TokenAt(s: string, i: nat): (r: (Token, nat))
    requires i < |s| && !IsSpace(s[i])
    ensures i < r.1 <= |s|
  {
    if s[i] == '>' && i + 1 < |s| && s[i + 1] == '>' then (Append, i + 2)
    else if IsSymbol(s[i]) then (Sym(s[i]), i + 1)
    else (Word(Span(i, WordEnd(s, i))), WordEnd(s, i))
  }

  /** The tokens of the line from position i on. */
  function Lex(s: string, i: nat): (r: seq<Token>)
    requires i <= |s|
    decreases |s| - i
  {
    var j := SkipSpace(s, i);
    if j == |s| then []
    else
      var (t, k) := TokenAt(s, j);
      [t] + Lex(s, k)
  }

  /** A maximal run of word characters. */
  ghost predicate GoodSpan(s: string, w: Span) {
    && w.q < w.eq <= |s|
    && (forall k :: w.q <= k < w.eq ==> IsWordChar(s[k]))
    && (w.eq < |s| ==> !IsWordChar(s[w.eq]))
  }

  lemma {:induction false} LexWords(s: string, i: nat)
    requires i <= |s|
    ensures forall t :: t in Lex(s, i) && t.Word? ==> GoodSpan(s, t.w)
    decreases |s| - i
  {
    var j := SkipSpace(s, i);
    if j < |s| {
      var (t, k) := TokenAt(s, j);
      LexWords(s, k);
    }
  }

  /** And the words are all of them: every run of word characters that is maximal on both sides is a token. */
  lemma {:induction false} LexHas(s: string, i: nat, w: Span)
    requires i <= w.q && GoodSpan(s, w) && (w.q > 0 ==> !IsWordChar(s[w.q - 1]))
    ensures Word(w) in Lex(s, i)
    decreases |s| - i
  {
    var j := SkipSpace(s, i);
    assert IsWordChar(s[w.q]);
    assert j <= w.q;
    var (t, k) := TokenAt(s, j);
    if j == w.q {
      assert t == Word(Span(j, WordEnd(s, j)));
      assert !(w.eq < k) && !(k < w.eq);
    } else {
      assert k <= w.q;
      LexHas(s, k, w);
    }
  }

  /** The first character of a token. */
  function Leading(s: string, t: Token): char {
    match t
    case Sym(c) => c
    case Append => '>'
    case Word(w) => if w.q < |s| then s[w.q] else '\0'
  }

  class Parser {
    const line: string
    var ps: nat

    constructor (s: string)
      requires '\0' !in s
      ensures line == s && ps == 0
    {
      line, ps := s, 0;
    }

    ghost predicate Valid()
      reads this
    {
      ps <= |line| && '\0' !in line
    }

    /** What is left to parse. */
    ghost function Left(): (r: seq<Token>)
      requires Valid()
      reads this
    {
      Lex(line, ps)
    }

    method Skip()
      requires Valid()
      modifies this`ps
      ensures Valid() && ps == SkipSpace(line, old(ps)) && Left() == old(Left())
    {
      ghost var start := ps;
      while ps < |line| && IsSpace(line[ps])
        invariant Valid() && start <= ps && SkipSpace(line, ps) == SkipSpace(line, start)
      {
        ps := ps + 1;
      }
    }

    /** The loop of gettoken() over a word. */
    method SkipWord()
      requires Valid()
      modifies this`ps
      ensures Valid() && ps == WordEnd(line, old(ps))
    {
      ghost var q := ps;
      while ps < |line| && IsWordChar(line[ps])
        invariant Valid() && q <= ps && WordEnd(line, ps) == WordEnd(line, q)
      {
        ps := ps + 1;
      }
    }

    /** gettoken(): the next token of the line, or None at its end. */
    method GetToken() returns (r: Option<Token>)
      requires Valid()
      modifies this`ps
      ensures Valid() && old(ps) <= ps
      ensures r.None? <==> old(Left()) == []
      ensures r.None? ==> Left() == []
      ensures r.Some? ==> old(Left()) == [r.value] + Left() && old(ps) < ps
    {
      Skip();
      if ps == |line| {
        return None;
      }
      var start := ps;
      var c := line[ps];
      if IsSymbol(c) {
        ps := ps + 1;
        if c == '>' && ps < |line| && line[ps] == '>' {
          ps := ps + 1;
          r := Some(Append);
        } else {
          r := Some(Sym(c));
        }
      } else {
        SkipWord();
        r := Some(Word(Span(start, ps)));
      }
      Skip();
    }

    /** peek(): does the next token start with one of the characters? */
    method Peek(toks: string) returns (r: bool)
      requires Valid()
      modifies this`ps
      ensures Valid() && old(ps) <= ps && Left() == old(Left())
      ensures r <==> Left() != [] && Leading(line, Left()[0]) in toks
      ensures ps == |line| <==> Left() == []
    {
      Skip();
      r := ps < |line| && line[ps] in toks;
    }

    /** parseredirs(): the redirections at this point; None is the panic on a missing file name. */
    method ParseRedirs() returns (r: Option<seq<Redirect>>)
      requires Valid()
      modifies this`ps
      ensures Valid() && old(ps) <= ps
      ensures match Redirects(old(Left()))
              case Fail => r.None?
              case Ok(rs, rest) => r == Some(rs) && Left() == rest
    {
      hide Lex, Leading;
      var rs: seq<Redirect> := [];
      ghost var start := Left();
      BeforeNone(Redirects(start), Fail);
      while true
        invariant Valid() && old(ps) <= ps
        invariant Redirects(start) == Before(rs, Redirects(Left()))
        decreases |line| - ps
      {
        var more := Peek("<>");
        LeadingRedirect(line, ps);
        if !more {
          assert rs + [] == rs;
          return Some(rs);
        }
        var tok := GetToken();
        var file := GetToken();
        if file.None? || !file.value.Word? {
          return None;
        }
        RedirectsStep(rs, tok.value, file.value.w, Left());
        rs := rs + [Redirect(tok.value, file.value.w)];
      }
    }

    /** parseexec(): a simple command, or a block. */
    method ParseExec() returns (r: Option<Cmd>)
      requires Valid()
      modifies this`ps
      ensures Valid() && old(ps) <= ps
      ensures match ParseElement(old(Left()))
              case Fail => r.None?
              case Ok(e, rest) => r == Some(ElementCommand(e)) && Left() == rest
      decreases |line| - ps, 1
    {
      hide Lex, Leading, Args, Wrapped, ParseLineTokens, LineCommand, Redirects;
      var block := Peek("(");
      LeadingSymbol(line, ps, '(');
      if block {
        r := ParseBlock();
        return;
      }
      var rs := ParseRedirs();
      if rs.None? {
        return None;
      }
      ghost var start := Left();
      var items: seq<Item>, args: seq<Span> := [], [];
      NoArgs();
      BeforeNone(Fail, Arguments(start, 0));
      while true
        invariant Valid() && old(ps) <= ps && |args| < MAXARGS
        invariant Arguments(start, 0) == BeforeItems(items, Arguments(Left(), |args|))
        invariant args == Args(items)
        decreases |line| - ps
      {
        var stop := Peek("|)&;");
        LeadingEnd(line, ps);
        if stop {
          break;
        }
        var tok := GetToken();
        if tok.None? {
          break;
        }
        if !tok.value.Word? {
          return None;
        }
        args := args + [tok.value.w];
        if |args| >= MAXARGS {
          return None;
        }
        ghost var rest := Left();
        var more := ParseRedirs();
        if more.None? {
          return None;
        }
        ArgumentsStep(items, tok.value.w, rest, |args| - 1);
        StepArgs(items, tok.value.w, more.value);
        items := items + ([Arg(tok.value.w)] + AsItems(more.value));
      }
      assert items + [] == items;
      r := Some(Wrapped(Exec(args), AsItems(rs.value) + items));
      assert [] + args == args;
      ArgsConcat(AsItems(rs.value), items);
      ArgsOfRedirects(rs.value);
    }

    /** parseblock(): a parenthesised line and its redirections. */
    method ParseBlock() returns (r: Option<Cmd>)
      requires Valid() && Left() != [] && Left()[0] == Sym('(')
      modifies this`ps
      ensures Valid() && old(ps) <= ps
      ensures match ParseElement(old(Left()))
              case Fail => r.None?
              case Ok(e, rest) => r == Some(ElementCommand(e)) && Left() == rest
      decreases |line| - ps, 0
    {
      hide Lex, Leading, Wrapped, ParseLineTokens, LineCommand, Redirects;
      var open := GetToken();
      var c := ParseLine();
      if c.None? {
        return None;
      }
      var closed := Peek(")");
      LeadingSymbol(line, ps, ')');
      if !closed {
        return None;
      }
      var close := GetToken();
      var rs := ParseRedirs();
      if rs.None? {
        return None;
      }
      r := Some(Wrapped(c.value, AsItems(rs.value)));
    }

    /** parsepipe() */
    method ParsePipe() returns (r: Option<Cmd>)
      requires Valid()
      modifies this`ps
      ensures Valid() && old(ps) <= ps
      ensures match ParsePipeline(old(Left()))
              case Fail => r.None?
              case Ok(p, rest) => r == Some(PipelineCommand(p)) && Left() == rest
      decreases |line| - ps, 2
    {
      hide Lex, Leading, ParseElement, ElementCommand;
      var c := ParseExec();
      if c.None? {
        return None;
      }
      var more := Peek("|");
      LeadingSymbol(line, ps, '|');
      if !more {
        return c;
      }
      var bar := GetToken();
      var right := ParsePipe();
      if right.None? {
        return None;
      }
      r := Some(Pipe(c.value, right.value));
    }

    /** parseline() */
    method ParseLine() returns (r: Option<Cmd>)
      requires Valid()
      modifies this`ps
      ensures Valid() && old(ps) <= ps
      ensures match ParseLineTokens(old(Left()))
              case Fail => r.None?
              case Ok(l, rest) => r == Some(LineCommand(l)) && Left() == rest
      decreases |line| - ps, 3
    {
      hide Lex, Leading, ParsePipeline, PipelineCommand, Backed;
      var c := ParsePipe();
      if c.None? {
        return None;
      }
      ghost var start := Left();
      var cmd := c.value;
      ghost var n := 0;
      NoAmps(cmd);
      while true
        invariant Valid() && old(ps) <= ps
        invariant n <= |start| && Left() == start[n..] && CountAmps(start) == n + CountAmps(Left())
        invariant cmd == Backed(c.value, n)
        decreases |line| - ps
      {
        var amp := Peek("&");
        LeadingSymbol(line, ps, '&');
        if !amp {
          break;
        }
        var t := GetToken();
        OneMoreAmp(n, c.value);
        cmd := Back(cmd);
        n := n + 1;
      }
      var semi := Peek(";");
      LeadingSymbol(line, ps, ';');
      if !semi {
        return Some(cmd);
      }
      var t := GetToken();
      var right := ParseLine();
      if right.None? {
        return None;
      }
      r := Some(List(cmd, right.value));
    }

    /** parsecmd() up to nulterminate(): the leftovers test. */
    method ParseCmd() returns (r: Option<Cmd>)
      requires Valid() && ps == 0
      modifies this`ps
      ensures Valid()
      ensures match ParseLineTokens(Lex(line, 0))
              case Fail => r.None?
              case Ok(l, rest) => r == if rest == [] then Some(LineCommand(l)) else None
    {
      hide ParseLineTokens, LineCommand;
      var c := ParseLine();
      if c.None? {
        return None;
      }
      var none := Peek("");
      r := if ps != |line| then None else c;
    }
  }

  // --------------------------------------------------------------- facts used by the parser

  function Before(rs: seq<Redirect>, p: Parsed<seq<Redirect>>): (r: Parsed<seq<Redirect>>) {
    if p.Ok? then Ok(rs + p.value, p.rest) else Fail
  }

  function BeforeItems(items: seq<Item>, p: Parsed<seq<Item>>): (r: Parsed<seq<Item>>) {
    if p.Ok? then Ok(items + p.value, p.rest) else Fail
  }

  lemma BeforeNone(p: Parsed<seq<Redirect>>, q: Parsed<seq<Item>>)
    ensures Before([], p) == p && BeforeItems([], q) == q
  {
    assert p.Ok? ==> [] + p.value == p.value;
    assert q.Ok? ==> [] + q.value == q.value;
  }

  /** One more redirection moves from the tokens to the accumulator. */
  lemma RedirectsStep(rs: seq<Redirect>, op: Token, w: Span, rest: seq<Token>)
    requires IsRedirect(op)
    ensures Before(rs, Redirects([op] + ([Word(w)] + rest))) == Before(rs + [Redirect(op, w)], Redirects(rest))
  {
    var ts := [op] + ([Word(w)] + rest);
    assert ts[2..] == rest;
    var p := Redirects(rest);
    if p.Ok? {
      assert rs + ([Redirect(op, w)] + p.value) == rs + [Redirect(op, w)] + p.value;
    }
  }

  lemma AppendThrice<T>(x: seq<T>, y: seq<T>, z: seq<T>)
    ensures x + (y + z) == x + y + z
  {
  }

  /** One more argument with its redirections moves from the tokens to the accumulator. */
  lemma ArgumentsStep(items: seq<Item>, w: Span, rest: seq<Token>, n: nat)
    requires n + 1 < MAXARGS && Redirects(rest).Ok?
    ensures var q := Redirects(rest);
            BeforeItems(items, Arguments([Word(w)] + rest, n))
            == BeforeItems(items + ([Arg(w)] + AsItems(q.value)), Arguments(q.rest, n + 1))
  {
    hide Redirects, AsItems;
    var ts := [Word(w)] + rest;
    assert ts[1..] == rest;
    var q := Redirects(rest);
    var p := Arguments(q.rest, n + 1);
    if p.Ok? {
      AppendThrice(items, [Arg(w)] + AsItems(q.value), p.value);
    }
  }

  lemma NoArgs()
    ensures Args([]) == []
  {
  }

  lemma NoAmps(c: Cmd)
    ensures Backed(c, 0) == c
  {
  }

  lemma OneMoreAmp(n: nat, c: Cmd)
    ensures Backed(c, n + 1) == Back(Backed(c, n))
  {
  }

  lemma {:induction false} YieldConcat(a: seq<Item>, b: seq<Item>)
    ensures ItemsYield(a + b) == ItemsYield(a) + ItemsYield(b)
  {
    if a == [] {
      assert a + b == b;
    } else {
      hide ItemYield;
      YieldConcat(a[1..], b);
      assert (a + b)[1..] == a[1..] + b && (a + b)[0] == a[0];
      var x, y, z := ItemYield(a[0]), ItemsYield(a[1..]), ItemsYield(b);
      assert ItemsYield(a + b) == x + (y + z) == x + y + z;
    }
  }

  lemma {:induction false} ArgsConcat(a: seq<Item>, b: seq<Item>)
    ensures Args(a + b) == Args(a) + Args(b)
  {
    if a == [] {
      assert a + b == b;
    } else {
      ArgsConcat(a[1..], b);
      assert (a + b)[1..] == a[1..] + b && (a + b)[0] == a[0];
      var x := if a[0].Arg? then [a[0].w] else [];
      AppendThrice(x, Args(a[1..]), Args(b));
    }
  }

  lemma {:induction false} ArgsOfRedirects(rs: seq<Redirect>)
    ensures Args(AsItems(rs)) == []
  {
    if rs != [] {
      ArgsOfRedirects(rs[1..]);
      assert AsItems(rs)[1..] == AsItems(rs[1..]);
    }
  }

  lemma StepArgs(items: seq<Item>, w: Span, rs: seq<Redirect>)
    ensures Args(items + ([Arg(w)] + AsItems(rs))) == Args(items) + [w]
  {
    ArgsConcat(items, [Arg(w)] + AsItems(rs));
    ArgsConcat([Arg(w)], AsItems(rs));
    ArgsOfRedirects(rs);
    assert Args([Arg(w)]) == [w] + Args([Arg(w)][1..]);
  }

  /** The next token starts with an operator character exactly when it is that operator. */
  lemma LeadingSymbol(s: string, i: nat, c: char)
    requires i <= |s| && c in "()|&;"
    ensures Lex(s, i) != [] ==> (Leading(s, Lex(s, i)[0]) in [c] <==> Lex(s, i)[0] == Sym(c))
  {
    assert IsSymbol(c);
  }

  lemma LeadingRedirect(s: string, i: nat)
    requires i <= |s|
    ensures Lex(s, i) != [] ==> (Leading(s, Lex(s, i)[0]) in "<>" <==> IsRedirect(Lex(s, i)[0]))
  {
    assert IsSymbol('<') && IsSymbol('>');
  }

  lemma LeadingEnd(s: string, i: nat)
    requires i <= |s|
    ensures Lex(s, i) != [] ==> (Leading(s, Lex(s, i)[0]) in "|)&;" <==> Ends(Lex(s, i)[0]))
  {
    assert IsSymbol('|') && IsSymbol(')') && IsSymbol('&') && IsSymbol(';');
  }

  // --------------------------------------------------------------- nulterminate()

  /** The tokens a command points to: its arguments and file names. */
  function Spans(c: Cmd): (r: seq<Span>) {
    match c
    case Exec(argv) => argv
    case Redir(cmd, file, _, _) => Spans(cmd) + [file]
    case Pipe(left, right) => Spans(left) + Spans(right)
    case List(left, right) => Spans(left) + Spans(right)
    case Back(cmd) => Spans(cmd)
  }

  lemma {:induction false} ItemsSpans(c: Cmd, items: seq<Item>)
    ensures forall w :: w in Spans(Wrapped(c, items)) ==> w in Spans(c) || Word(w) in ItemsYield(items)
    ensures forall w :: w in Args(items) ==> Word(w) in ItemsYield(items)
    decreases |items|
  {
    if items != [] {
      ItemsSpans(if items[0].Red? then Redirected(c, items[0].r) else c, items[1..]);
    }
  }

  /** Every pointer of the command is a word of the line. */
  lemma {:induction false} LineSpans(l: Line)
    ensures forall w :: w in Spans(LineCommand(l)) ==> Word(w) in LineYield(l)
  {
    PipelineSpans(l.first);
    BackedSpans(PipelineCommand(l.first), l.amps);
    if l.next.Some? {
      LineSpans(l.next.value);
    }
  }

  lemma {:induction false} BackedSpans(c: Cmd, n: nat)
    ensures Spans(Backed(c, n)) == Spans(c)
  {
    if n > 0 {
      BackedSpans(c, n - 1);
    }
  }

  lemma {:induction false} PipelineSpans(p: Pipeline)
    ensures forall w :: w in Spans(PipelineCommand(p)) ==> Word(w) in PipelineYield(p)
  {
    match p
    case Single(e) => ElementSpans(e);
    case Piped(e, rest) =>
      ElementSpans(e);
      PipelineSpans(rest);
  }

  lemma {:induction false} ElementSpans(e: Element)
    ensures forall w :: w in Spans(ElementCommand(e)) ==> Word(w) in ElementYield(e)
  {
    match e
    case Simple(items) => ItemsSpans(Exec(Args(items)), items);
    case Block(body, rs) =>
      LineSpans(body);
      ItemsSpans(LineCommand(body), AsItems(rs));
  }

  lemma {:induction false} WrappedKeeps(c: Cmd, items: seq<Item>, w: Span)
    requires w in Spans(c)
    ensures w in Spans(Wrapped(c, items))
    decreases |items|
  {
    if items != [] {
      WrappedKeeps(if items[0].Red? then Redirected(c, items[0].r) else c, items[1..], w);
    }
  }

  /** The other way: every word of the items is an argument or a file name of the command. */
  lemma {:induction false} ItemsAll(c: Cmd, items: seq<Item>, w: Span)
    requires Ops(items) && Word(w) in ItemsYield(items)
    ensures w in Args(items) || w in Spans(Wrapped(c, items))
    decreases |items|
  {
    var c' := if items[0].Red? then Redirected(c, items[0].r) else c;
    if Word(w) in ItemYield(items[0]) {
      if items[0].Red? {
        WrappedKeeps(c', items[1..], w);
      }
    } else {
      assert Ops(items[1..]) by {
        assert forall i :: 0 <= i < |items[1..]| ==> items[1..][i] == items[i + 1];
      }
      ItemsAll(c', items[1..], w);
    }
  }

  /** Every word of the line is an argument or a file name of its command. */
  lemma {:induction false} LineAll(l: Line, w: Span)
    requires WfLine(l) && Word(w) in LineYield(l)
    ensures w in Spans(LineCommand(l))
  {
    BackedSpans(PipelineCommand(l.first), l.amps);
    if Word(w) in PipelineYield(l.first) {
      PipelineAll(l.first, w);
    } else {
      LineAll(l.next.value, w);
    }
  }

  lemma {:induction false} PipelineAll(p: Pipeline, w: Span)
    requires WfPipeline(p) && Word(w) in PipelineYield(p)
    ensures w in Spans(PipelineCommand(p))
  {
    match p
    case Single(e) => ElementAll(e, w);
    case Piped(e, rest) =>
      if Word(w) in ElementYield(e) {
        ElementAll(e, w);
      } else {
        PipelineAll(rest, w);
      }
  }

  lemma {:induction false} ElementAll(e: Element, w: Span)
    requires WfElement(e) && Word(w) in ElementYield(e)
    ensures w in Spans(ElementCommand(e))
  {
    match e
    case Simple(items) =>
      ItemsAll(Exec(Args(items)), items, w);
      if w in Args(items) {
        WrappedKeeps(Exec(Args(items)), items, w);
      }
    case Block(body, rs) =>
      if Word(w) in LineYield(body) {
        LineAll(body, w);
        WrappedKeeps(LineCommand(body), AsItems(rs), w);
      } else {
        ArgsOfRedirects(rs);
        ItemsAll(LineCommand(body), AsItems(rs), w);
      }
  }

  // --------------------------------------------------------------- the order of the words in the tree

  /** The words of a come before those of b. */
  ghost predicate Apart(a: seq<Span>, b: seq<Span>) {
    forall x, y :: x in a && y in b ==> x.eq <= y.q
  }

  /** Arguments are in the order of the line, and what is left of a '|' or ';' is on the left. */
  ghost predicate InOrder(c: Cmd) {
    match c
    case Exec(argv) => forall i, j :: 0 <= i < j < |argv| ==> argv[i].eq <= argv[j].q
    case Redir(cmd, _, _, _) => InOrder(cmd)
    case Pipe(left, right) => InOrder(left) && InOrder(right) && Apart(Spans(left), Spans(right))
    case List(left, right) => InOrder(left) && InOrder(right) && Apart(Spans(left), Spans(right))
    case Back(cmd) => InOrder(cmd)
  }

  ghost predicate Sorted(ts: seq<Token>) {
    forall i, j :: 0 <= i < j < |ts| && ts[i].Word? && ts[j].Word? ==> ts[i].w.eq <= ts[j].w.q
  }

  lemma SortedParts(a: seq<Token>, b: seq<Token>)
    requires Sorted(a + b)
    ensures Sorted(a) && Sorted(b)
    ensures forall x, y :: Word(x) in a && Word(y) in b ==> x.eq <= y.q
  {
    var ts := a + b;
    forall i, j | 0 <= i < j < |a| && a[i].Word? && a[j].Word? ensures a[i].w.eq <= a[j].w.q {
      assert ts[i] == a[i] && ts[j] == a[j];
    }
    forall i, j | 0 <= i < j < |b| && b[i].Word? && b[j].Word? ensures b[i].w.eq <= b[j].w.q {
      assert ts[|a| + i] == b[i] && ts[|a| + j] == b[j];
    }
    forall x, y | Word(x) in a && Word(y) in b ensures x.eq <= y.q {
      var i :| 0 <= i < |a| && a[i] == Word(x);
      var j :| 0 <= j < |b| && b[j] == Word(y);
      assert ts[i] == a[i] && ts[|a| + j] == b[j];
    }
  }

  lemma {:induction false} WrappedInOrder(c: Cmd, items: seq<Item>)
    requires InOrder(c)
    ensures InOrder(Wrapped(c, items))
    decreases |items|
  {
    if items != [] {
      WrappedInOrder(if items[0].Red? then Redirected(c, items[0].r) else c, items[1..]);
    }
  }

  lemma {:induction false} BackedInOrder(c: Cmd, n: nat)
    requires InOrder(c)
    ensures InOrder(Backed(c, n))
  {
    if n > 0 {
      BackedInOrder(c, n - 1);
    }
  }

  lemma {:induction false} ArgsInOrder(items: seq<Item>)
    requires Sorted(ItemsYield(items))
    ensures InOrder(Exec(Args(items)))
  {
    if items != [] {
      SortedParts(ItemYield(items[0]), ItemsYield(items[1..]));
      ArgsInOrder(items[1..]);
      ItemsSpans(Exec([]), items[1..]);
      var argv := Args(items);
      forall i, j | 0 <= i < j < |argv| ensures argv[i].eq <= argv[j].q {
        if items[0].Arg? {
          assert argv[j] == Args(items[1..])[j - 1];
          assert i > 0 ==> argv[i] == Args(items[1..])[i - 1];
          assert Word(items[0].w) in ItemYield(items[0]);
        }
      }
    }
  }

  lemma {:induction false} LineInOrder(l: Line)
    requires Sorted(LineYield(l))
    ensures InOrder(LineCommand(l))
  {
    hide InOrder, Sorted, PipelineYield, PipelineCommand, Backed;
    var first := PipelineYield(l.first);
    var c := PipelineCommand(l.first);
    PipelineSpans(l.first);
    BackedSpans(c, l.amps);
    if l.next.Some? {
      var next := [Sym(';')] + LineYield(l.next.value);
      SortedParts(first + Amps(l.amps), next);
      SortedParts([Sym(';')], LineYield(l.next.value));
      SortedParts(first, Amps(l.amps));
      LineInOrder(l.next.value);
      LineSpans(l.next.value);
      ListInOrder(Backed(c, l.amps), LineCommand(l.next.value));
    } else {
      assert first + Amps(l.amps) + [] == first + Amps(l.amps);
      SortedParts(first, Amps(l.amps));
    }
    PipelineInOrder(l.first);
    BackedInOrder(c, l.amps);
  }

  lemma ListInOrder(a: Cmd, b: Cmd)
    ensures InOrder(a) && InOrder(b) && Apart(Spans(a), Spans(b)) ==> InOrder(List(a, b)) && InOrder(Pipe(a, b))
  {
  }

  lemma {:induction false} PipelineInOrder(p: Pipeline)
    requires Sorted(PipelineYield(p))
    ensures InOrder(PipelineCommand(p))
  {
    hide InOrder, Sorted, ElementYield, ElementCommand;
    match p
    case Single(e) => ElementInOrder(e);
    case Piped(e, rest) =>
      SortedParts(ElementYield(e) + [Sym('|')], PipelineYield(rest));
      SortedParts(ElementYield(e), [Sym('|')]);
      ElementInOrder(e);
      PipelineInOrder(rest);
      ElementSpans(e);
      PipelineSpans(rest);
      ListInOrder(ElementCommand(e), PipelineCommand(rest));
  }

  lemma {:induction false} ElementInOrder(e: Element)
    requires Sorted(ElementYield(e))
    ensures InOrder(ElementCommand(e))
  {
    hide InOrder, Sorted, LineYield, LineCommand;
    match e
    case Simple(items) =>
      ArgsInOrder(items);
      WrappedInOrder(Exec(Args(items)), items);
    case Block(body, rs) =>
      SortedParts([Sym('(')] + LineYield(body) + [Sym(')')], ItemsYield(AsItems(rs)));
      SortedParts([Sym('(')] + LineYield(body), [Sym(')')]);
      SortedParts([Sym('(')], LineYield(body));
      LineInOrder(body);
      WrappedInOrder(LineCommand(body), AsItems(rs));
  }

  lemma {:induction false} LexSorted(s: string, i: nat)
    requires i <= |s|
    ensures Sorted(Lex(s, i)) && forall w :: Word(w) in Lex(s, i) ==> i <= w.q
    decreases |s| - i
  {
    var ts := Lex(s, i);
    if ts != [] {
      var j := TokenAt(s, SkipSpace(s, i)).1;
      LexSorted(s, j);
      assert ts[1..] == Lex(s, j);
      forall a, b | 0 <= a < b < |ts| && ts[a].Word? && ts[b].Word? ensures ts[a].w.eq <= ts[b].w.q {
        assert ts[b] == Lex(s, j)[b - 1];
        if a > 0 {
          assert ts[a] == Lex(s, j)[a - 1];
        } else {
          assert Word(ts[b].w) in Lex(s, j);
        }
      }
    }
  }

  // --------------------------------------------------------------- one node an operator

  /** The nodes of a command that '&', '|' and ';' make. */
  ghost function Nodes(c: Cmd, op: char): (n: nat) {
    match c
    case Exec(_) => 0
    case Redir(cmd, _, _, _) => Nodes(cmd, op)
    case Pipe(left, right) => Nodes(left, op) + Nodes(right, op) + if op == '|' then 1 else 0
    case List(left, right) => Nodes(left, op) + Nodes(right, op) + if op == ';' then 1 else 0
    case Back(cmd) => Nodes(cmd, op) + if op == '&' then 1 else 0
  }

  ghost function Symbols(ts: seq<Token>, op: char): (n: nat) {
    if ts == [] then 0 else (if ts[0] == Sym(op) then 1 else 0) + Symbols(ts[1..], op)
  }

  lemma {:induction false} SymbolsConcat(a: seq<Token>, b: seq<Token>, op: char)
    ensures Symbols(a + b, op) == Symbols(a, op) + Symbols(b, op)
  {
    if a == [] {
      assert a + b == b;
    } else {
      assert (a + b)[1..] == a[1..] + b && (a + b)[0] == a[0];
      SymbolsConcat(a[1..], b, op);
    }
  }

  lemma OneSymbol(t: Token, op: char)
    ensures Symbols([t], op) == if t == Sym(op) then 1 else 0
  {
    assert [t][1..] == [];
  }

  lemma {:induction false} AmpSymbols(n: nat, op: char)
    ensures Symbols(Amps(n), op) == if op == '&' then n else 0
  {
    if n > 0 {
      AmpSymbols(n - 1, op);
      assert Amps(n)[1..] == Amps(n - 1);
    }
  }

  lemma {:induction false} ItemsNodes(c: Cmd, items: seq<Item>, op: char)
    requires Ops(items) && op in "&|;"
    ensures Symbols(ItemsYield(items), op) == 0 && Nodes(Wrapped(c, items), op) == Nodes(c, op)
    decreases |items|
  {
    if items != [] {
      assert Ops(items[1..]) by {
        assert forall i :: 0 <= i < |items[1..]| ==> items[1..][i] == items[i + 1];
      }
      ItemsNodes(if items[0].Red? then Redirected(c, items[0].r) else c, items[1..], op);
      SymbolsConcat(ItemYield(items[0]), ItemsYield(items[1..]), op);
      if items[0].Red? {
        var r := items[0].r;
        SymbolsConcat([r.op], [Word(r.file)], op);
        assert [r.op] + [Word(r.file)] == [r.op, Word(r.file)];
        OneSymbol(r.op, op);
        OneSymbol(Word(r.file), op);
      } else {
        OneSymbol(Word(items[0].w), op);
      }
    }
  }

  lemma {:induction false} BackedNodes(c: Cmd, n: nat, op: char)
    ensures Nodes(Backed(c, n), op) == Nodes(c, op) + if op == '&' then n else 0
  {
    if n > 0 {
      BackedNodes(c, n - 1, op);
    }
  }

  /** Every '&', '|' and ';' of the line makes one node of its command, and nothing else does. */
  lemma {:induction false} LineNodes(l: Line, op: char)
    requires WfLine(l) && op in "&|;"
    ensures Nodes(LineCommand(l), op) == Symbols(LineYield(l), op)
  {
    var first := PipelineYield(l.first);
    PipelineNodes(l.first, op);
    BackedNodes(PipelineCommand(l.first), l.amps, op);
    AmpSymbols(l.amps, op);
    SymbolsConcat(first, Amps(l.amps), op);
    if l.next.Some? {
      var next := LineYield(l.next.value);
      LineNodes(l.next.value, op);
      OneSymbol(Sym(';'), op);
      SymbolsConcat([Sym(';')], next, op);
      SymbolsConcat(first + Amps(l.amps), [Sym(';')] + next, op);
    } else {
      assert first + Amps(l.amps) + [] == first + Amps(l.amps);
    }
  }

  lemma {:induction false} PipelineNodes(p: Pipeline, op: char)
    requires WfPipeline(p) && op in "&|;"
    ensures Nodes(PipelineCommand(p), op) == Symbols(PipelineYield(p), op)
  {
    match p
    case Single(e) => ElementNodes(e, op);
    case Piped(e, rest) =>
      ElementNodes(e, op);
      PipelineNodes(rest, op);
      OneSymbol(Sym('|'), op);
      SymbolsConcat(ElementYield(e), [Sym('|')], op);
      SymbolsConcat(ElementYield(e) + [Sym('|')], PipelineYield(rest), op);
  }

  lemma {:induction false} ElementNodes(e: Element, op: char)
    requires WfElement(e) && op in "&|;"
    ensures Nodes(ElementCommand(e), op) == Symbols(ElementYield(e), op)
  {
    match e
    case Simple(items) => ItemsNodes(Exec(Args(items)), items, op);
    case Block(body, rs) =>
      var y := LineYield(body);
      LineNodes(body, op);
      ItemsNodes(LineCommand(body), AsItems(rs), op);
      OneSymbol(Sym('('), op);
      OneSymbol(Sym(')'), op);
      SymbolsConcat([Sym('(')], y, op);
      SymbolsConcat([Sym('(')] + y, [Sym(')')], op);
      SymbolsConcat([Sym('(')] + y + [Sym(')')], ItemsYield(AsItems(rs)), op);
  }

  // --------------------------------------------------------------- redirections

  /** The redirections of a command from the inside out: file descriptor, open mode and file name. */
  ghost function Takes(c: Cmd): (r: seq<(nat, nat, Span)>) {
    if c.Redir? then Takes(c.cmd) + [(c.fd, c.mode, c.file)] else []
  }

  /** What redirections ask for: '<' standard input, opened for reading; '>' and '>>' standard output, created and
      opened for writing. */
  ghost function Asks(items: seq<Item>): (r: seq<(nat, nat, Span)>) {
    if items == [] then []
    else
      (match items[0]
       case Arg(_) => []
       case Red(Redirect(op, file)) => if op == Sym('<') then [(0, 0, file)] else [(1, 0x201, file)])
      + Asks(items[1..])
  }

  /** Each redirection opens its file on its descriptor, the later ones outside. */
  lemma {:induction false} RedirectionsTaken(c: Cmd, items: seq<Item>)
    ensures Takes(Wrapped(c, items)) == Takes(c) + Asks(items)
    decreases |items|
  {
    if items != [] {
      var c' := if items[0].Red? then Redirected(c, items[0].r) else c;
      RedirectionsTaken(c', items[1..]);
      var x := if items[0].Red? then [(c'.fd, c'.mode, c'.file)] else [];
      AppendThrice(Takes(c), x, Asks(items[1..]));
    }
  }

  /** buffer holds the line and its terminating NUL. */
  ghost predicate Buffer(a: seq<char>, s: string) {
    a == s + ['\0']
  }

  /** The buffer with a NUL at the end of each token. */
  function Cut(a: seq<char>, spans: seq<Span>): (r: seq<char>)
    requires forall w :: w in spans ==> w.eq < |a|
    ensures |r| == |a|
  {
    if spans == [] then a else Cut(a, spans[..|spans| - 1])[spans[|spans| - 1].eq := '\0']
  }

  lemma {:induction false} CutConcat(a: seq<char>, x: seq<Span>, y: seq<Span>)
    requires forall w :: w in x + y ==> w.eq < |a|
    ensures Cut(a, x + y) == Cut(Cut(a, x), y)
  {
    if y == [] {
      assert x + y == x;
    } else {
      assert (x + y)[..|x + y| - 1] == x + y[..|y| - 1];
      CutConcat(a, x, y[..|y| - 1]);
    }
  }

  lemma {:induction false} CutAt(a: seq<char>, spans: seq<Span>, k: nat)
    requires (forall w :: w in spans ==> w.eq < |a|) && k < |a|
    ensures (exists i :: 0 <= i < |spans| && spans[i].eq == k) ==> Cut(a, spans)[k] == '\0'
    ensures (forall i :: 0 <= i < |spans| ==> spans[i].eq != k) ==> Cut(a, spans)[k] == a[k]
  {
    if spans != [] {
      CutAt(a, spans[..|spans| - 1], k);
    }
  }

  /** nulterminate(): in place, a NUL at the end of every token of the command and nowhere else. */
  method NulTerminate(c: Cmd, buf: array<char>)
    requires forall w :: w in Spans(c) ==> w.eq < buf.Length
    modifies buf
    ensures buf[..] == Cut(old(buf[..]), Spans(c))
    decreases c
  {
    ghost var a := buf[..];
    match c
    case Exec(argv) =>
      var i := 0;
      assert buf[..] == Cut(a, argv[..0]);
      while i < |argv|
        invariant 0 <= i <= |argv|
        invariant forall w :: w in argv[..i] ==> w.eq < |a|
        invariant buf[..] == Cut(a, argv[..i])
      {
        assert argv[i] in argv && argv[..i + 1] == argv[..i] + [argv[i]];
        buf[argv[i].eq] := '\0';
        assert argv[..i + 1][..i] == argv[..i];
        i := i + 1;
      }
      assert argv[..i] == argv;
    case Redir(cmd, file, _, _) =>
      assert file in Spans(c);
      NulTerminate(cmd, buf);
      buf[file.eq] := '\0';
      assert Spans(c)[..|Spans(c)| - 1] == Spans(cmd);
    case Pipe(left, right) =>
      CutConcat(a, Spans(left), Spans(right));
      NulTerminate(left, buf);
      NulTerminate(right, buf);
    case List(left, right) =>
      CutConcat(a, Spans(left), Spans(right));
      NulTerminate(left, buf);
      NulTerminate(right, buf);
    case Back(cmd) =>
      NulTerminate(cmd, buf);
  }

  /** The C string at position q of a buffer. */
  ghost predicate ReadsAs(a: seq<char>, q: nat, text: string) {
    q + |text| < |a| && a[q..q + |text|] == text && '\0' !in text && a[q + |text|] == '\0'
  }

  lemma CutReads(s: string, spans: seq<Span>, w: Span)
    requires '\0' !in s && w in spans && GoodSpan(s, w)
    requires forall v :: v in spans ==> v.eq <= |s| && GoodSpan(s, v)
    ensures ReadsAs(Cut(s + ['\0'], spans), w.q, s[w.q..w.eq])
  {
    var a := s + ['\0'];
    var r := Cut(a, spans);
    var n :| 0 <= n < |spans| && spans[n] == w;
    CutAt(a, spans, w.eq);
    forall k | w.q <= k < w.eq ensures r[k] == s[k] {
      CutAt(a, spans, k);
      forall i | 0 <= i < |spans| ensures spans[i].eq != k {
        assert GoodSpan(s, spans[i]) && GoodSpan(s, w);
      }
    }
  }

  // --------------------------------------------------------------- the descent accepts exactly the grammar

  lemma OpsConcat(a: seq<Item>, b: seq<Item>)
    requires Ops(a) && Ops(b)
    ensures Ops(a + b)
  {
  }

  /** An argument with its redirections. */
  lemma HeadFacts(w: Span, rs: seq<Redirect>)
    ensures ItemsYield([Arg(w)] + AsItems(rs)) == [Word(w)] + ItemsYield(AsItems(rs))
    ensures Args([Arg(w)] + AsItems(rs)) == [w]
    ensures Ops(AsItems(rs)) ==> Ops([Arg(w)] + AsItems(rs))
  {
    assert ([Arg(w)] + AsItems(rs))[1..] == AsItems(rs);
    ArgsOfRedirects(rs);
  }

  lemma NoRedirects()
    ensures ItemsYield(AsItems([])) == [] && Ops(AsItems([]))
  {
  }

  lemma {:induction false} RedirectsSound(ts: seq<Token>)
    requires Redirects(ts).Ok?
    ensures var p := Redirects(ts); ts == ItemsYield(AsItems(p.value)) + p.rest && Ops(AsItems(p.value))
  {
    hide ItemsYield, AsItems, Ops;
    NoRedirects();
    if ts != [] && IsRedirect(ts[0]) {
      RedirectsSound(ts[2..]);
      var p, q := Redirects(ts), Redirects(ts[2..]);
      RedirectFirst(Redirect(ts[0], ts[1].w), q.value);
      assert ts == [ts[0], ts[1]] + ts[2..];
      assert [ts[0], ts[1]] + (ItemsYield(AsItems(q.value)) + q.rest) ==
               [ts[0], ts[1]] + ItemsYield(AsItems(q.value)) + q.rest;
    }
  }

  lemma RedirectFirst(r: Redirect, rs: seq<Redirect>)
    requires IsRedirect(r.op)
    ensures ItemsYield(AsItems([r] + rs)) == [r.op, Word(r.file)] + ItemsYield(AsItems(rs))
    ensures Ops(AsItems(rs)) ==> Ops(AsItems([r] + rs))
  {
    var items := AsItems([r] + rs);
    assert items[1..] == AsItems(rs) && items[0] == Red(r);
    assert forall i :: 1 <= i < |items| ==> items[i] == AsItems(rs)[i - 1];
  }

  lemma {:induction false} ArgumentsSound(ts: seq<Token>, n: nat)
    requires Arguments(ts, n).Ok? && n < MAXARGS
    ensures var p := Arguments(ts, n);
            ts == ItemsYield(p.value) + p.rest && Ops(p.value) && n + |Args(p.value)| < MAXARGS
    decreases |ts|
  {
    hide ItemsYield, Args, AsItems, Redirects, Ops;
    NothingYields();
    if ts != [] && !Ends(ts[0]) {
      RedirectsSound(ts[1..]);
      var q := Redirects(ts[1..]);
      ArgumentsSound(q.rest, n + 1);
      var p := Arguments(q.rest, n + 1);
      var head := [Arg(ts[0].w)] + AsItems(q.value);
      HeadFacts(ts[0].w, q.value);
      YieldConcat(head, p.value);
      ArgsConcat(head, p.value);
      OpsConcat(head, p.value);
      Regroup(ts, ItemsYield(AsItems(q.value)), ItemsYield(p.value), p.rest);
    }
  }

  lemma Regroup(ts: seq<Token>, a: seq<Token>, b: seq<Token>, rest: seq<Token>)
    requires ts != []
    ensures ts[1..] == a + (b + rest) <==> ts == [ts[0]] + a + b + rest
  {
    assert ts == [ts[0]] + ts[1..];
    assert [ts[0]] + a + b + rest == [ts[0]] + (a + (b + rest));
    assert ([ts[0]] + (a + (b + rest)))[1..] == a + (b + rest);
  }

  lemma NothingYields()
    ensures ItemsYield([]) == [] && Args([]) == [] && Ops([])
  {
  }

  lemma {:induction false} ElementSound(ts: seq<Token>)
    requires ParseElement(ts).Ok?
    ensures var p := ParseElement(ts); ts == ElementYield(p.value) + p.rest && WfElement(p.value)
    decreases |ts|, 0
  {
    hide ItemsYield, Args, AsItems, Redirects, Ops, Arguments, ParseLineTokens, LineYield, WfLine;
    if ts != [] && ts[0] == Sym('(') {
      LineSound(ts[1..]);
      var l := ParseLineTokens(ts[1..]);
      RedirectsSound(l.rest[1..]);
      var q := Redirects(l.rest[1..]);
      assert ts == [ts[0]] + ts[1..] && l.rest == [l.rest[0]] + l.rest[1..];
    } else {
      RedirectsSound(ts);
      var q := Redirects(ts);
      ArgumentsSound(q.rest, 0);
      var a := Arguments(q.rest, 0);
      YieldConcat(AsItems(q.value), a.value);
      ArgsConcat(AsItems(q.value), a.value);
      ArgsOfRedirects(q.value);
      OpsConcat(AsItems(q.value), a.value);
    }
  }

  lemma {:induction false} PipelineSound(ts: seq<Token>)
    requires ParsePipeline(ts).Ok?
    ensures var p := ParsePipeline(ts); ts == PipelineYield(p.value) + p.rest && WfPipeline(p.value)
    decreases |ts|, 1
  {
    hide ParseElement, ElementYield, WfElement;
    ElementSound(ts);
    var e := ParseElement(ts);
    if e.rest != [] && e.rest[0] == Sym('|') {
      PipelineSound(e.rest[1..]);
      assert e.rest == [e.rest[0]] + e.rest[1..];
    }
  }

  lemma {:induction false} AmpsSound(ts: seq<Token>)
    ensures ts == Amps(CountAmps(ts)) + ts[CountAmps(ts)..]
  {
    if ts != [] && ts[0] == Sym('&') {
      AmpsSound(ts[1..]);
      var n := CountAmps(ts);
      assert Amps(n) == [Sym('&')] + Amps(n - 1);
      assert ts[1..][n - 1..] == ts[n..];
    }
  }

  /** Soundness: what the descent consumes is what its derivation yields. */
  lemma {:induction false} LineSound(ts: seq<Token>)
    requires ParseLineTokens(ts).Ok?
    ensures var p := ParseLineTokens(ts); ts == LineYield(p.value) + p.rest && WfLine(p.value)
    decreases |ts|, 2
  {
    hide ParsePipeline, PipelineYield, WfPipeline, Amps, CountAmps;
    PipelineSound(ts);
    var p := ParsePipeline(ts);
    AmpsSound(p.rest);
    var n := CountAmps(p.rest);
    var rest := p.rest[n..];
    if rest != [] && rest[0] == Sym(';') {
      LineSound(rest[1..]);
      assert rest == [rest[0]] + rest[1..];
    }
  }

  // ------------------------------------------------------------ and every derivation is found

  /** The redirections that come first, and what follows them. */
  ghost function Lead(items: seq<Item>): (r: seq<Redirect>)
    ensures |r| <= |items| && items[..|r|] == AsItems(r)
    ensures |r| < |items| ==> items[|r|].Arg?
  {
    if items == [] || items[0].Arg? then []
    else
      var more := Lead(items[1..]);
      assert items[..|more| + 1] == [items[0]] + items[1..][..|more|];
      [items[0].r] + more
  }

  lemma {:induction false} RedirectsBack(rs: seq<Redirect>, rest: seq<Token>)
    requires Ops(AsItems(rs)) && (rest == [] || !IsRedirect(rest[0]))
    ensures Redirects(ItemsYield(AsItems(rs)) + rest) == Ok(rs, rest)
  {
    if rs == [] {
      assert ItemsYield(AsItems(rs)) + rest == rest;
    } else {
      var items := AsItems(rs);
      assert items[1..] == AsItems(rs[1..]);
      assert Ops(items[1..]) by {
        assert forall i :: 0 <= i < |items[1..]| ==> items[1..][i] == items[i + 1];
      }
      RedirectsBack(rs[1..], rest);
      var ts := ItemsYield(items) + rest;
      assert ts == [rs[0].op, Word(rs[0].file)] + (ItemsYield(items[1..]) + rest);
      assert IsRedirect(items[0].r.op);
      assert ts[2..] == ItemsYield(items[1..]) + rest;
      assert [rs[0]] + rs[1..] == rs;
    }
  }

  /** A suffix after the leading redirections starts with an argument, so its tokens with a word. */
  lemma AfterLead(tail: seq<Item>, rest: seq<Token>)
    requires (tail == [] || tail[0].Arg?) && (rest == [] || Ends(rest[0]))
    ensures var ts := ItemsYield(tail) + rest; ts == [] || ts[0].Word? || Ends(ts[0])
  {
  }

  lemma {:induction false} ArgumentsBack(items: seq<Item>, n: nat, rest: seq<Token>)
    requires (items == [] || items[0].Arg?) && Ops(items) && n + |Args(items)| < MAXARGS
    requires rest == [] || Ends(rest[0])
    ensures Arguments(ItemsYield(items) + rest, n) == Ok(items, rest)
    decreases |items|
  {
    hide ItemsYield, Args, AsItems, Redirects, Ops, Lead;
    NothingYields();
    if items == [] {
      assert ItemsYield(items) + rest == rest;
    } else {
      var w := items[0].w;
      var lead := Lead(items[1..]);
      var tail := items[1..][|lead|..];
      LeadSplit(items);
      HeadFacts(w, lead);
      ArgsConcat([Arg(w)] + AsItems(lead), tail);
      YieldConcat([Arg(w)] + AsItems(lead), tail);
      AfterLead(tail, rest);
      var ts := ItemsYield(items) + rest;
      Regroup(ts, ItemsYield(AsItems(lead)), ItemsYield(tail), rest);
      RedirectsBack(lead, ItemsYield(tail) + rest);
      ArgumentsBack(tail, n + 1, rest);
    }
  }

  lemma LeadSplit(items: seq<Item>)
    requires items != [] && items[0].Arg? && Ops(items)
    ensures var lead := Lead(items[1..]);
            var tail := items[1..][|lead|..];
            items == [Arg(items[0].w)] + AsItems(lead) + tail && Ops(AsItems(lead)) && Ops(tail)
  {
    hide Lead;
    var lead := Lead(items[1..]);
    assert items[1..] == items[1..][..|lead|] + items[1..][|lead|..];
    assert items == [Arg(items[0].w)] + items[1..];
    LeadOps(items[1..]);
  }

  lemma LeadOps(items: seq<Item>)
    requires Ops(items)
    ensures Ops(AsItems(Lead(items))) && Ops(items[|Lead(items)|..])
  {
    hide Lead, AsItems;
    assert Ops(items[..|Lead(items)|]);
  }

  /** What may follow a whole line, a pipeline and an element. */
  predicate AfterLine(rest: seq<Token>) {
    rest == [] || rest[0] == Sym(')')
  }

  predicate AfterPipeline(rest: seq<Token>) {
    rest == [] || rest[0] == Sym(')') || rest[0] == Sym('&') || rest[0] == Sym(';')
  }

  predicate AfterElement(rest: seq<Token>) {
    rest == [] || Ends(rest[0])
  }

  lemma SimpleBack(items: seq<Item>, rest: seq<Token>)
    requires WfElement(Simple(items)) && AfterElement(rest)
    ensures ParseElement(ItemsYield(items) + rest) == Ok(Simple(items), rest)
  {
    hide ItemsYield, Args, AsItems, Redirects, Arguments, Lead, Ops;
    var lead := Lead(items);
    var tail := items[|lead|..];
    assert items == items[..|lead|] + tail;
    LeadOps(items);
    YieldConcat(AsItems(lead), tail);
    ArgsConcat(AsItems(lead), tail);
    ArgsOfRedirects(lead);
    AfterLead(tail, rest);
    var ts := ItemsYield(items) + rest;
    assert ts == ItemsYield(AsItems(lead)) + (ItemsYield(tail) + rest);
    RedirectsBack(lead, ItemsYield(tail) + rest);
    ArgumentsBack(tail, 0, rest);
    NotOpen(items, rest);
  }

  lemma NotOpen(items: seq<Item>, rest: seq<Token>)
    requires Ops(items) && AfterElement(rest)
    ensures var ts := ItemsYield(items) + rest; ts == [] || ts[0] != Sym('(')
  {
  }

  lemma {:induction false} ElementBack(e: Element, rest: seq<Token>)
    requires WfElement(e) && AfterElement(rest)
    ensures ParseElement(ElementYield(e) + rest) == Ok(e, rest)
    decreases e, 0
  {
    hide ItemsYield, Args, AsItems, Redirects, Arguments, LineYield, ParseLineTokens, WfLine, Ops;
    match e
    case Simple(items) => SimpleBack(items, rest);
    case Block(body, rs) =>
      var after := ItemsYield(AsItems(rs)) + rest;
      var ts := ElementYield(e) + rest;
      assert ts == [Sym('(')] + (LineYield(body) + ([Sym(')')] + after));
      assert ts[1..] == LineYield(body) + ([Sym(')')] + after);
      LineBack(body, [Sym(')')] + after);
      assert ([Sym(')')] + after)[1..] == after;
      RedirectsBack(rs, rest);
  }

  lemma {:induction false} PipelineBack(p: Pipeline, rest: seq<Token>)
    requires WfPipeline(p) && AfterPipeline(rest)
    ensures ParsePipeline(PipelineYield(p) + rest) == Ok(p, rest)
    decreases p, 1
  {
    hide ParseElement, ElementYield, WfElement;
    match p
    case Single(e) => ElementBack(e, rest);
    case Piped(e, q) =>
      var after := [Sym('|')] + (PipelineYield(q) + rest);
      assert PipelineYield(p) + rest == ElementYield(e) + after;
      ElementBack(e, after);
      assert after[1..] == PipelineYield(q) + rest;
      PipelineBack(q, rest);
  }

  lemma {:induction false} AmpsBack(n: nat, rest: seq<Token>)
    requires rest == [] || rest[0] != Sym('&')
    ensures CountAmps(Amps(n) + rest) == n
  {
    if n == 0 {
      assert Amps(n) + rest == rest;
    } else {
      AmpsBack(n - 1, rest);
      assert (Amps(n) + rest)[1..] == Amps(n - 1) + rest;
    }
  }

  /** Completeness, and with it unambiguity: a derivation's tokens parse back to that derivation. */
  lemma {:induction false} LineBack(l: Line, rest: seq<Token>)
    requires WfLine(l) && AfterLine(rest)
    ensures ParseLineTokens(LineYield(l) + rest) == Ok(l, rest)
    decreases l, 2
  {
    hide ParsePipeline, PipelineYield, WfPipeline, CountAmps;
    var after := (if l.next.Some? then [Sym(';')] + LineYield(l.next.value) else []) + rest;
    AmpsBack(l.amps, after);
    var amps := Amps(l.amps) + after;
    assert LineYield(l) + rest == PipelineYield(l.first) + amps;
    assert amps[l.amps..] == after;
    PipelineBack(l.first, amps);
    if l.next.Some? {
      assert after[1..] == LineYield(l.next.value) + rest;
      LineBack(l.next.value, rest);
    }
  }

  // --------------------------------------------------------------- the whole command

  /** l is a derivation of the tokens of line s. */
  ghost predicate Derives(l: Line, s: string) {
    WfLine(l) && LineYield(l) == Lex(s, 0)
  }

  /** The descent on the whole line succeeds exactly for the lines that have a derivation, which is unique. */
  lemma ParsesDerivations(s: string)
    ensures var p := ParseLineTokens(Lex(s, 0));
            && (p.Ok? && p.rest == [] <==> exists l :: Derives(l, s))
            && (forall l :: Derives(l, s) ==> p == Ok(l, []))
  {
    var ts := Lex(s, 0);
    var p := ParseLineTokens(ts);
    if p.Ok? && p.rest == [] {
      LineSound(ts);
      assert LineYield(p.value) + [] == LineYield(p.value);
      assert Derives(p.value, s);
    }
    forall l | Derives(l, s) ensures p == Ok(l, []) {
      assert LineYield(l) + [] == ts;
      LineBack(l, []);
    }
  }

  /** parsecmd(): a line is accepted exactly when the grammar derives it, the command is the tree its one
      derivation denotes, and after nulterminate() every argument and file pointer reads as its token. */
  method ParseAndCut(s: string, buf: array<char>) returns (r: Option<Cmd>)
    requires '\0' !in s && Buffer(buf[..], s)
    modifies buf
    ensures r.Some? <==> exists l :: Derives(l, s)
    ensures forall l :: Derives(l, s) ==> r == Some(LineCommand(l))
    ensures r.Some? ==> forall w :: w in Spans(r.value) ==> GoodSpan(s, w) && ReadsAs(buf[..], w.q, s[w.q..w.eq])
    ensures r.Some? ==>
              forall w :: Word(w) in Lex(s, 0) ==>
                w in Spans(r.value) && w.q <= w.eq <= |s| && ReadsAs(buf[..], w.q, s[w.q..w.eq])
    ensures r.Some? ==>
              forall w :: GoodSpan(s, w) && (w.q > 0 ==> !IsWordChar(s[w.q - 1])) ==>
                w in Spans(r.value) && ReadsAs(buf[..], w.q, s[w.q..w.eq])
    ensures r.Some? ==> InOrder(r.value) && forall op :: op in "&|;" ==> Nodes(r.value, op) == Symbols(Lex(s, 0), op)
    ensures r.None? ==> buf[..] == old(buf[..])
  {
    hide Lex, LineCommand, ParseLineTokens, Derives, Spans, InOrder, Nodes, Symbols;
    var parser := new Parser(s);
    r := parser.ParseCmd();
    ParsesDerivations(s);
    if r.None? {
      return;
    }
    SpansAreWords(s);
    NulTerminate(r.value, buf);
    forall w | w in Spans(r.value) ensures ReadsAs(buf[..], w.q, s[w.q..w.eq]) {
      CutReads(s, Spans(r.value), w);
    }
    WordsAreSpans(s);
    forall w | GoodSpan(s, w) && (w.q > 0 ==> !IsWordChar(s[w.q - 1])) ensures Word(w) in Lex(s, 0) {
      LexHas(s, 0, w);
    }
  }

  /** Every word of an accepted line is in its command, and in order. */
  lemma WordsAreSpans(s: string)
    requires ParseLineTokens(Lex(s, 0)).Ok? && ParseLineTokens(Lex(s, 0)).rest == []
    ensures var c := LineCommand(ParseLineTokens(Lex(s, 0)).value);
            && InOrder(c) && (forall w :: Word(w) in Lex(s, 0) ==> w in Spans(c))
            && forall op :: op in "&|;" ==> Nodes(c, op) == Symbols(Lex(s, 0), op)
  {
    hide Lex, LineCommand, ParseLineTokens, Spans, InOrder, Sorted, Nodes, Symbols;
    var l := ParseLineTokens(Lex(s, 0)).value;
    LineSound(Lex(s, 0));
    assert LineYield(l) + [] == LineYield(l);
    LexSorted(s, 0);
    LineInOrder(l);
    forall w | Word(w) in Lex(s, 0) ensures w in Spans(LineCommand(l)) {
      LineAll(l, w);
    }
    forall op | op in "&|;" ensures Nodes(LineCommand(l), op) == Symbols(Lex(s, 0), op) {
      LineNodes(l, op);
    }
  }

  lemma SpansAreWords(s: string)
    requires ParseLineTokens(Lex(s, 0)).Ok?
    ensures forall w :: w in Spans(LineCommand(ParseLineTokens(Lex(s, 0)).value)) ==> w.eq <= |s| && GoodSpan(s, w)
  {
    hide Lex, LineCommand, ParseLineTokens, Spans;
    var l := ParseLineTokens(Lex(s, 0)).value;
    LineSound(Lex(s, 0));
    LexWords(s, 0);
    LineSpans(l);
    forall w | w in Spans(LineCommand(l)) ensures GoodSpan(s, w) {
      assert Word(w) in LineYield(l);
      assert Word(w) in Lex(s, 0);
    }
  }
}
