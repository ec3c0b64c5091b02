/** The shell's parser, user/sh.c: tokens, recursive descent over a shared cursor, and the NULs
    written into the line at the end. The parser is proved against a grammar of syntax trees, each
    with the tokens it prints as and the command it means. */
module Shell {
  const MAXARGS: nat := 10
  const NUL: char := '\0'

  /** A word of the line: its first character, and the one after its last. */
  type Span = (nat, nat)

  datatype Mode = Read | Create | Append   // '<', '>', '>>'

  datatype Redirect = Redirect(file: Span, mode: Mode)

  datatype Cmd =
    | Exec(argv: seq<Span>)
    | Redir(cmd: Cmd, r: Redirect)
    | Pipe(left: Cmd, right: Cmd)
    | List(left: Cmd, right: Cmd)
    | Back(cmd: Cmd)

  /** panic() ends the shell's child. */
  datatype Parsed = Ok(cmd: Cmd) | Panic(why: string)

  // ---- tokens ----

  /** A word, or a symbol; '+' stands for '>>'. */
  datatype Tok = Word(span: Span) | Sym(c: char)

  predicate Space(c: char) {
    c == ' ' || c == '\t' || c == '\r' || c == '\n' || c == '\U{0B}'
  }

  predicate Symbol(c: char) {
    c == '<' || c == '|' || c == '>' || c == '&' || c == ';' || c == '(' || c == ')'
  }

  predicate Plain(c: char) {
    !Space(c) && !Symbol(c)
  }

  ghost function RunEnd(text: seq<char>, a: nat): (e: nat)
    requires a <= |text|
    ensures a <= e <= |text| && (forall i | a <= i < e :: Plain(text[i])) && (e < |text| ==> !Plain(text[e]))
    decreases |text| - a
  {
    if a < |text| && Plain(text[a]) then RunEnd(text, a + 1) else a
  }

  /** The tokens of the line from a on: words are maximal runs of plain characters. */
  ghost function Lex(text: seq<char>, a: nat): seq<Tok>
    requires a <= |text|
    decreases |text| - a
  {
    if a == |text| then []
    else if Space(text[a]) then Lex(text, a + 1)
    else if text[a] == '>' && a + 1 < |text| && text[a + 1] == '>' then [Sym('+')] + Lex(text, a + 2)
    else if Symbol(text[a]) then [Sym(text[a])] + Lex(text, a + 1)
    else [Word((a, RunEnd(text, a)))] + Lex(text, RunEnd(text, a))
  }

  lemma {:induction false} Blanks(text: seq<char>, a: nat, b: nat)
    requires a <= b <= |text| && forall k | a <= k < b :: Space(text[k])
    ensures Lex(text, a) == Lex(text, b)
    decreases b - a
  {
    if a < b {
      Blanks(text, a + 1, b);
    }
  }

  lemma {:induction false} SameEnd(text: seq<char>, a: nat, e: nat)
    requires a <= e <= |text| && (forall i | a <= i < e :: Plain(text[i])) && (e < |text| ==> !Plain(text[e]))
    ensures RunEnd(text, a) == e
    decreases e - a
  {
    if a < e {
      SameEnd(text, a + 1, e);
    }
  }

  /** A maximal run of plain characters. */
  ghost predicate IsWord(text: seq<char>, t: Span) {
    && t.0 < t.1 <= |text| && (t.1 < |text| ==> !Plain(text[t.1]))
    && forall i | t.0 <= i < t.1 :: Plain(text[i])
  }

  lemma {:induction false} LexWords(text: seq<char>, a: nat)
    requires a <= |text|
    ensures forall t | t in Lex(text, a) && t.Word? :: IsWord(text, t.span)
    decreases |text| - a
  {
    if a < |text| {
      if Space(text[a]) {
        LexWords(text, a + 1);
      } else if text[a] == '>' && a + 1 < |text| && text[a + 1] == '>' {
        LexWords(text, a + 2);
      } else if Symbol(text[a]) {
        LexWords(text, a + 1);
      } else {
        LexWords(text, RunEnd(text, a));
      }
    }
  }

  // ---- the grammar ----

  datatype Item = Arg(w: Span) | To(r: Redirect)

  datatype Unit = Simple(items: seq<Item>) | Block(line: Line, rs: seq<Redirect>)

  datatype Chain = One(u: Unit) | Piped(u: Unit, next: Chain)

  /** A pipeline, some ampersands, and another line after a semicolon. */
  datatype Line = Last(chain: Chain, bg: nat) | Then(chain: Chain, bg: nat, next: Line)

  function Sign(m: Mode): char {
    match m case Read => '<' case Create => '>' case Append => '+'
  }

  ghost function PrintRs(rs: seq<Redirect>): seq<Tok> {
    if rs == [] then [] else [Sym(Sign(rs[0].mode)), Word(rs[0].file)] + PrintRs(rs[1..])
  }

  ghost function PrintItems(items: seq<Item>): seq<Tok> {
    if items == [] then []
    else (match items[0] case Arg(w) => [Word(w)] case To(r) => [Sym(Sign(r.mode)), Word(r.file)]) + PrintItems(items[1..])
  }

  ghost function Amps(n: nat): seq<Tok> {
    if n == 0 then [] else [Sym('&')] + Amps(n - 1)
  }

  ghost function PrintUnit(u: Unit): seq<Tok> {
    match u
    case Simple(items) => PrintItems(items)
    case Block(line, rs) => [Sym('(')] + (PrintLine(line) + ([Sym(')')] + PrintRs(rs)))
  }

  ghost function PrintChain(ch: Chain): seq<Tok> {
    match ch
    case One(u) => PrintUnit(u)
    case Piped(u, next) => PrintUnit(u) + ([Sym('|')] + PrintChain(next))
  }

  ghost function PrintLine(t: Line): seq<Tok> {
    match t
    case Last(ch, bg) => PrintChain(ch) + Amps(bg)
    case Then(ch, bg, next) => PrintChain(ch) + (Amps(bg) + ([Sym(';')] + PrintLine(next)))
  }

  /** The command with redirections around it, the last outermost. */
  ghost function Wrap(c: Cmd, rs: seq<Redirect>): Cmd
    decreases |rs|
  {
    if rs == [] then c else Wrap(Redir(c, rs[0]), rs[1..])
  }

  ghost function Words(items: seq<Item>): seq<Span> {
    if items == [] then [] else (if items[0].Arg? then [items[0].w] else []) + Words(items[1..])
  }

  ghost function Redirects(items: seq<Item>): seq<Redirect> {
    if items == [] then [] else (if items[0].To? then [items[0].r] else []) + Redirects(items[1..])
  }

  ghost function Backs(c: Cmd, n: nat): Cmd
    decreases n
  {
    if n == 0 then c else Backs(Back(c), n - 1)
  }

  ghost function UnitMeans(u: Unit): Cmd {
    match u
    case Simple(items) => Wrap(Exec(Words(items)), Redirects(items))
    case Block(line, rs) => Wrap(LineMeans(line), rs)
  }

  ghost function ChainMeans(ch: Chain): Cmd {
    match ch
    case One(u) => UnitMeans(u)
    case Piped(u, next) => Pipe(UnitMeans(u), ChainMeans(next))
  }

  ghost function LineMeans(t: Line): Cmd {
    match t
    case Last(ch, bg) => Backs(ChainMeans(ch), bg)
    case Then(ch, bg, next) => List(Backs(ChainMeans(ch), bg), LineMeans(next))
  }

  /** Every simple command leaves room for the null pointer after its last argument. */
  ghost predicate UnitFits(u: Unit) {
    match u
    case Simple(items) => |Words(items)| < MAXARGS
    case Block(line, _) => LineFits(line)
  }

  ghost predicate ChainFits(ch: Chain) {
    match ch
    case One(u) => UnitFits(u)
    case Piped(u, next) => UnitFits(u) && ChainFits(next)
  }

  ghost predicate LineFits(t: Line) {
    match t
    case Last(ch, _) => ChainFits(ch)
    case Then(ch, _, next) => ChainFits(ch) && LineFits(next)
  }

  // ---- the parser on token sequences ----

  datatype Out = Got(c: Cmd, rest: seq<Tok>) | Fail(why: string)

  ghost predicate Starts(T: seq<Tok>, toks: string) {
    T != [] && T[0].Sym? && (T[0].c in toks || (T[0].c == '+' && '>' in toks))
  }

  function ModeOf(c: char): Mode {
    if c == '<' then Read else if c == '>' then Create else Append
  }

  /** An argument more for the simple command inside the redirections. */
  function AddArg(c: Cmd, w: Span): Cmd {
    match c
    case Exec(argv) => Exec(argv + [w])
    case Redir(d, r) => Redir(AddArg(d, w), r)
    case _ => c
  }

  ghost function Redirs(c: Cmd, T: seq<Tok>): (o: Out)
    ensures o.Got? ==> |o.rest| <= |T|
    decreases |T|
  {
    if !Starts(T, "<>") then Got(c, T)
    else if |T| < 2 || !T[1].Word? then Fail("missing file for redirection")
    else Redirs(Redir(c, Redirect(T[1].span, ModeOf(T[0].c))), T[2..])
  }

  ghost function Args(c: Cmd, n: nat, T: seq<Tok>): (o: Out)
    ensures o.Got? ==> |o.rest| <= |T|
    decreases |T|
  {
    if T == [] || Starts(T, "|)&;") then Got(c, T)
    else if !T[0].Word? then Fail("syntax")
    else if n + 1 >= MAXARGS then Fail("too many args")
    else
      match Redirs(AddArg(c, T[0].span), T[1..])
      case Got(d, rest) => Args(d, n + 1, rest)
      case Fail(w) => Fail(w)
  }

  ghost function RedirsArgs(c: Cmd, n: nat, T: seq<Tok>): (o: Out)
    ensures o.Got? ==> |o.rest| <= |T|
  {
    match Redirs(c, T)
    case Got(d, rest) => Args(d, n, rest)
    case Fail(w) => Fail(w)
  }

  ghost function Units(T: seq<Tok>): (o: Out)
    ensures o.Got? ==> |o.rest| <= |T|
    decreases |T|, 1
  {
    if Starts(T, "(") then Blocks(T) else RedirsArgs(Exec([]), 0, T)
  }

  ghost function Blocks(T: seq<Tok>): (o: Out)
    ensures o.Got? ==> |o.rest| <= |T|
    decreases |T|, 0
  {
    if !Starts(T, "(") then Fail("parseblock")
    else
      match Lines(T[1..])
      case Fail(w) => Fail(w)
      case Got(c, rest) => if Starts(rest, ")") then Redirs(c, rest[1..]) else Fail("syntax - missing )")
  }

  ghost function Chains(T: seq<Tok>): (o: Out)
    ensures o.Got? ==> |o.rest| <= |T|
    decreases |T|, 2
  {
    match Units(T)
    case Fail(w) => Fail(w)
    case Got(c, rest) =>
      if !Starts(rest, "|") then Got(c, rest)
      else
        match Chains(rest[1..])
        case Fail(w) => Fail(w)
        case Got(d, rest') => Got(Pipe(c, d), rest')
  }

  ghost function TakeAmps(c: Cmd, T: seq<Tok>): (o: Out)
    ensures o.Got? && |o.rest| <= |T|
    decreases |T|
  {
    if Starts(T, "&") then TakeAmps(Back(c), T[1..]) else Got(c, T)
  }

  ghost function Lines(T: seq<Tok>): (o: Out)
    ensures o.Got? ==> |o.rest| <= |T|
    decreases |T|, 3
  {
    match Chains(T)
    case Fail(w) => Fail(w)
    case Got(c0, rest0) => Semis(TakeAmps(c0, rest0).c, TakeAmps(c0, rest0).rest)
  }

  /** The end of parseline, after the ampersands. */
  ghost function Semis(c: Cmd, T: seq<Tok>): (o: Out)
    ensures o.Got? ==> |o.rest| <= |T|
    decreases |T|, 0
  {
    if !Starts(T, ";") then Got(c, T)
    else
      match Lines(T[1..])
      case Fail(w) => Fail(w)
      case Got(d, rest) => Got(List(c, d), rest)
  }

  // ---- every printed tree is parsed as what it means ----

  /** What can follow: nothing, or one of the symbols. */
  ghost predicate Follows(R: seq<Tok>, toks: string) {
    R == [] || (R[0].Sym? && R[0].c in toks)
  }

  lemma {:induction false} WrapSnoc(c: Cmd, rs: seq<Redirect>, r: Redirect)
    ensures Wrap(c, rs + [r]) == Redir(Wrap(c, rs), r)
    decreases |rs|
  {
    if rs == [] {
      assert rs + [r] == [r] && [r][1..] == [];
    } else {
      assert (rs + [r])[1..] == rs[1..] + [r];
      WrapSnoc(Redir(c, rs[0]), rs[1..], r);
    }
  }

  lemma {:induction false} WrapArg(argv: seq<Span>, rs: seq<Redirect>, w: Span)
    ensures AddArg(Wrap(Exec(argv), rs), w) == Wrap(Exec(argv + [w]), rs)
    decreases |rs|
  {
    if rs != [] {
      var n := |rs| - 1;
      assert rs == rs[..n] + [rs[n]];
      WrapSnoc(Exec(argv), rs[..n], rs[n]);
      WrapSnoc(Exec(argv + [w]), rs[..n], rs[n]);
      WrapArg(argv, rs[..n], w);
    }
  }

  lemma {:induction false} RsParse(c: Cmd, rs: seq<Redirect>, R: seq<Tok>)
    requires Follows(R, "|)&;")
    ensures Redirs(c, PrintRs(rs) + R) == Got(Wrap(c, rs), R)
    decreases |rs|
  {
    if rs == [] {
      assert PrintRs(rs) + R == R;
    } else {
      var T := PrintRs(rs) + R;
      assert T[2..] == PrintRs(rs[1..]) + R;
      RsParse(Redir(c, rs[0]), rs[1..], R);
    }
  }

  /** A redirection in front, and a word in front, take one step each. */
  lemma ToStep(c: Cmd, n: nat, r: Redirect, T: seq<Tok>)
    ensures RedirsArgs(c, n, [Sym(Sign(r.mode)), Word(r.file)] + T) == RedirsArgs(Redir(c, r), n, T)
  {
    hide Args;
    assert ([Sym(Sign(r.mode)), Word(r.file)] + T)[2..] == T;
  }

  lemma ArgStep(c: Cmd, n: nat, w: Span, T: seq<Tok>)
    requires n + 1 < MAXARGS
    ensures RedirsArgs(c, n, [Word(w)] + T) == RedirsArgs(AddArg(c, w), n + 1, T)
  {
    hide AddArg;
    assert ([Word(w)] + T)[1..] == T;
  }

  lemma ItemTo(r: Redirect, items: seq<Item>)
    ensures PrintItems([To(r)] + items) == [Sym(Sign(r.mode)), Word(r.file)] + PrintItems(items)
    ensures Words([To(r)] + items) == Words(items) && Redirects([To(r)] + items) == [r] + Redirects(items)
  {
    assert ([To(r)] + items)[1..] == items;
  }

  lemma ItemArg(w: Span, items: seq<Item>)
    ensures PrintItems([Arg(w)] + items) == [Word(w)] + PrintItems(items)
    ensures Words([Arg(w)] + items) == [w] + Words(items) && Redirects([Arg(w)] + items) == Redirects(items)
  {
    assert ([Arg(w)] + items)[1..] == items;
  }

  lemma Ends(c: Cmd, n: nat, R: seq<Tok>)
    requires Follows(R, "|)&;")
    ensures RedirsArgs(c, n, R) == Got(c, R)
  {
  }

  lemma {:induction false} ItemsParse(argv: seq<Span>, rs: seq<Redirect>, items: seq<Item>, R: seq<Tok>)
    requires Follows(R, "|)&;") && |argv| + |Words(items)| < MAXARGS
    ensures RedirsArgs(Wrap(Exec(argv), rs), |argv|, PrintItems(items) + R)
         == Got(Wrap(Exec(argv + Words(items)), rs + Redirects(items)), R)
    decreases |items|
  {
    hide RedirsArgs, PrintItems, Words, Redirects, Wrap, AddArg;
    var c := Wrap(Exec(argv), rs);
    if items == [] {
      NoItems(argv, rs, R);
      Ends(c, |argv|, R);
    } else {
      var more := items[1..];
      assert items == [items[0]] + more;
      match items[0] {
        case To(r) =>
          ItemTo(r, more);
          assert PrintItems(items) + R == [Sym(Sign(r.mode)), Word(r.file)] + (PrintItems(more) + R);
          ToStep(c, |argv|, r, PrintItems(more) + R);
          WrapSnoc(Exec(argv), rs, r);
          ItemsParse(argv, rs + [r], more, R);
          assert rs + [r] + Redirects(more) == rs + Redirects(items);
        case Arg(w) =>
          ItemArg(w, more);
          assert PrintItems(items) + R == [Word(w)] + (PrintItems(more) + R);
          ArgStep(c, |argv|, w, PrintItems(more) + R);
          WrapArg(argv, rs, w);
          ItemsParse(argv + [w], rs, more, R);
          assert argv + [w] + Words(more) == argv + Words(items);
      }
    }
  }

  lemma NotBlock(items: seq<Item>, R: seq<Tok>)
    requires Follows(R, "|)&;")
    ensures !Starts(PrintItems(items) + R, "(")
  {
    if items == [] {
      assert PrintItems(items) + R == R;
    }
  }

  lemma {:induction false} UnitParse(u: Unit, R: seq<Tok>)
    requires UnitFits(u) && Follows(R, "|)&;")
    ensures Units(PrintUnit(u) + R) == Got(UnitMeans(u), R)
    decreases u, 0
  {
    hide RedirsArgs, PrintItems, Words, Redirects, Lines, PrintLine, LineMeans, LineFits, PrintRs, Redirs;
    var T := PrintUnit(u) + R;
    match u {
      case Simple(items) =>
        WrapNone(Exec([]));
        NotBlock(items, R);
        ItemsParse([], [], items, R);
        assert [] + Words(items) == Words(items) && [] + Redirects(items) == Redirects(items);
      case Block(line, rs) =>
        var R1 := [Sym(')')] + (PrintRs(rs) + R);
        assert T[1..] == PrintLine(line) + R1;
        LineParse(line, R1);
        assert R1[1..] == PrintRs(rs) + R;
        RsParse(LineMeans(line), rs, R);
    }
  }

  lemma {:induction false} ChainParse(ch: Chain, R: seq<Tok>)
    requires ChainFits(ch) && Follows(R, ")&;")
    ensures Chains(PrintChain(ch) + R) == Got(ChainMeans(ch), R)
    decreases ch, 1
  {
    match ch {
      case One(u) => UnitParse(u, R);
      case Piped(u, next) =>
        var R1 := [Sym('|')] + (PrintChain(next) + R);
        assert PrintChain(ch) + R == PrintUnit(u) + R1;
        UnitParse(u, R1);
        assert R1[1..] == PrintChain(next) + R;
        ChainParse(next, R);
    }
  }

  lemma {:induction false} AmpsParse(c: Cmd, n: nat, R: seq<Tok>)
    requires Follows(R, ");")
    ensures TakeAmps(c, Amps(n) + R) == Got(Backs(c, n), R)
    decreases n
  {
    if n == 0 {
      assert Amps(n) + R == R;
    } else {
      AmpsParse(Back(c), n - 1, R);
      AmpStep(c, Amps(n - 1) + R);
      Regroup([Sym('&')], Amps(n - 1), R);
    }
  }

  lemma AmpStep(c: Cmd, T: seq<Tok>)
    ensures TakeAmps(c, [Sym('&')] + T) == TakeAmps(Back(c), T)
  {
    assert ([Sym('&')] + T)[1..] == T;
  }

  lemma {:induction false} LineParse(t: Line, R: seq<Tok>)
    requires LineFits(t) && Follows(R, ")")
    ensures Lines(PrintLine(t) + R) == Got(LineMeans(t), R)
    decreases t, 2
  {
    match t {
      case Last(ch, bg) =>
        assert PrintLine(t) + R == PrintChain(ch) + (Amps(bg) + R);
        ChainParse(ch, Amps(bg) + R);
        AmpsParse(ChainMeans(ch), bg, R);
      case Then(ch, bg, next) =>
        var R1 := [Sym(';')] + (PrintLine(next) + R);
        assert PrintLine(t) + R == PrintChain(ch) + (Amps(bg) + R1);
        ChainParse(ch, Amps(bg) + R1);
        AmpsParse(ChainMeans(ch), bg, R1);
        assert R1[1..] == PrintLine(next) + R;
        LineParse(next, R);
    }
  }

  // ---- whatever is parsed is some tree's printing ----

  lemma {:induction false} RsTree(c: Cmd, T: seq<Tok>) returns (rs: seq<Redirect>)
    requires Redirs(c, T).Got? && SignsOk(T)
    ensures T == PrintRs(rs) + Redirs(c, T).rest && Redirs(c, T).c == Wrap(c, rs)
    decreases |T|
  {
    if !Starts(T, "<>") {
      rs := [];
      assert PrintRs(rs) + T == T;
    } else {
      var r := FirstRedirect(T);
      var more := RsTree(Redir(c, r), T[2..]);
      rs := [r] + more;
      assert rs[1..] == more;
      hide Redirs, PrintRs, Wrap;
    }
  }

  lemma FirstRedirect(T: seq<Tok>) returns (r: Redirect)
    requires Starts(T, "<>") && SignsOk(T) && |T| >= 2 && T[1].Word?
    ensures r == Redirect(T[1].span, ModeOf(T[0].c)) && T == [Sym(Sign(r.mode)), Word(r.file)] + T[2..]
    ensures SignsOk(T[2..])
  {
    r := Redirect(T[1].span, ModeOf(T[0].c));
    assert T[0] in T;
    RestSigns(T, T[..2], T[2..]);
    assert T == T[..2] + T[2..];
  }

  /** Symbols are those that a line can have. */
  ghost predicate SignsOk(T: seq<Tok>) {
    forall t | t in T && t.Sym? :: Symbol(t.c) || t.c == '+'
  }

  lemma {:induction false} ItemsTree(argv: seq<Span>, rs: seq<Redirect>, T: seq<Tok>) returns (items: seq<Item>)
    requires |argv| < MAXARGS && SignsOk(T) && RedirsArgs(Wrap(Exec(argv), rs), |argv|, T).Got?
    ensures |argv| + |Words(items)| < MAXARGS
    ensures var o := RedirsArgs(Wrap(Exec(argv), rs), |argv|, T);
      T == PrintItems(items) + o.rest && o.c == Wrap(Exec(argv + Words(items)), rs + Redirects(items))
    decreases |T|
  {
    hide PrintItems, Words, Redirects, Wrap, AddArg, SignsOk;
    var c := Wrap(Exec(argv), rs);
    if Starts(T, "<>") {
      var r := FirstRedirect(T);
      ToStep(c, |argv|, r, T[2..]);
      WrapSnoc(Exec(argv), rs, r);
      var more := ItemsTree(argv, rs + [r], T[2..]);
      items := [To(r)] + more;
      ItemTo(r, more);
      assert rs + [r] + Redirects(more) == rs + Redirects(items);
      Regroup([Sym(Sign(r.mode)), Word(r.file)], PrintItems(more), RedirsArgs(c, |argv|, T).rest);
    } else if T == [] || Starts(T, "|)&;") {
      items := [];
      NoItems(argv, rs, T);
    } else {
      var w := T[0].span;
      assert T == [Word(w)] + T[1..];
      RestSigns(T, [Word(w)], T[1..]);
      ArgStep(c, |argv|, w, T[1..]);
      WrapArg(argv, rs, w);
      var more := ItemsTree(argv + [w], rs, T[1..]);
      items := [Arg(w)] + more;
      ItemArg(w, more);
      assert argv + [w] + Words(more) == argv + Words(items);
      Regroup([Word(w)], PrintItems(more), RedirsArgs(c, |argv|, T).rest);
    }
  }

  lemma NoItems(argv: seq<Span>, rs: seq<Redirect>, T: seq<Tok>)
    ensures Words([]) == [] && PrintItems([]) + T == T && argv + Words([]) == argv && rs + Redirects([]) == rs
  {
  }

  lemma Regroup<X>(a: seq<X>, b: seq<X>, c: seq<X>)
    ensures a + (b + c) == (a + b) + c
  {
  }

  lemma {:induction false} UnitTree(T: seq<Tok>) returns (u: Unit)
    requires SignsOk(T) && Units(T).Got?
    ensures UnitFits(u) && T == PrintUnit(u) + Units(T).rest && Units(T).c == UnitMeans(u)
    decreases |T|, 1
  {
    hide SignsOk, Redirs, RedirsArgs, PrintRs, PrintItems, PrintLine, Lines, LineMeans, Wrap, Words, Redirects;
    if Starts(T, "(") {
      RestSigns(T, [T[0]], T[1..]);
      var line := LineTree(T[1..]);
      var o := Lines(T[1..]);
      RestSigns(T[1..], PrintLine(line), o.rest);
      RestSigns(o.rest, [o.rest[0]], o.rest[1..]);
      var rs := RsTree(o.c, o.rest[1..]);
      u := Block(line, rs);
      BlockText(T, PrintLine(line), o.rest, PrintRs(rs), Redirs(o.c, o.rest[1..]).rest);
    } else {
      WrapNone(Exec([]));
      var items := ItemsTree([], [], T);
      u := Simple(items);
      assert [] + Words(items) == Words(items) && [] + Redirects(items) == Redirects(items);
    }
  }

  lemma WrapNone(c: Cmd)
    ensures Wrap(c, []) == c
  {
  }

  lemma BlockText(T: seq<Tok>, A: seq<Tok>, B: seq<Tok>, C: seq<Tok>, D: seq<Tok>)
    requires Starts(T, "(") && T[1..] == A + B && Starts(B, ")") && B[1..] == C + D
    ensures T == [Sym('(')] + (A + ([Sym(')')] + C)) + D
  {
    assert T == [Sym('(')] + T[1..];
    assert B == [Sym(')')] + B[1..];
  }

  lemma RestSigns(T: seq<Tok>, A: seq<Tok>, B: seq<Tok>)
    requires SignsOk(T) && T == A + B
    ensures SignsOk(B)
  {
    forall t | t in B ensures t in T {
    }
  }

  lemma {:induction false} ChainTree(T: seq<Tok>) returns (ch: Chain)
    requires SignsOk(T) && Chains(T).Got?
    ensures ChainFits(ch) && T == PrintChain(ch) + Chains(T).rest && Chains(T).c == ChainMeans(ch)
    decreases |T|, 2
  {
    hide SignsOk, Units, PrintUnit, UnitMeans, UnitFits;
    var u := UnitTree(T);
    var rest := Units(T).rest;
    if Starts(rest, "|") {
      RestSigns(T, PrintUnit(u), rest);
      RestSigns(rest, [rest[0]], rest[1..]);
      var next := ChainTree(rest[1..]);
      ch := Piped(u, next);
      PipedText(T, PrintUnit(u), rest, PrintChain(next), Chains(rest[1..]).rest);
    } else {
      ch := One(u);
    }
  }

  lemma PipedText(T: seq<Tok>, A: seq<Tok>, B: seq<Tok>, C: seq<Tok>, D: seq<Tok>)
    requires T == A + B && Starts(B, "|") && B[1..] == C + D
    ensures T == A + ([Sym('|')] + C) + D
  {
    assert B == [Sym('|')] + B[1..];
  }

  lemma {:induction false} AmpsTree(c: Cmd, T: seq<Tok>) returns (n: nat)
    ensures T == Amps(n) + TakeAmps(c, T).rest && TakeAmps(c, T).c == Backs(c, n)
    decreases |T|
  {
    if Starts(T, "&") {
      var m := AmpsTree(Back(c), T[1..]);
      n := m + 1;
      assert T == [Sym('&')] + T[1..];
    } else {
      n := 0;
    }
  }

  lemma {:induction false} LineTree(T: seq<Tok>) returns (t: Line)
    requires SignsOk(T) && Lines(T).Got?
    ensures LineFits(t) && T == PrintLine(t) + Lines(T).rest && Lines(T).c == LineMeans(t)
    decreases |T|, 3
  {
    hide SignsOk, Chains, TakeAmps, PrintChain, Amps, ChainMeans, Backs, ChainFits;
    var ch := ChainTree(T);
    var o := Chains(T);
    var bg := AmpsTree(o.c, o.rest);
    var rest := TakeAmps(o.c, o.rest).rest;
    RestSigns(T, PrintChain(ch), o.rest);
    RestSigns(o.rest, Amps(bg), rest);
    if Starts(rest, ";") {
      RestSigns(rest, [rest[0]], rest[1..]);
      var next := LineTree(rest[1..]);
      t := Then(ch, bg, next);
      ThenText(T, PrintChain(ch), Amps(bg), rest, PrintLine(next), Lines(rest[1..]).rest);
    } else {
      t := Last(ch, bg);
      Regroup(PrintChain(ch), Amps(bg), rest);
    }
  }

  lemma ThenText(T: seq<Tok>, A: seq<Tok>, B: seq<Tok>, C: seq<Tok>, D: seq<Tok>, E: seq<Tok>)
    requires T == A + (B + C) && Starts(C, ";") && C[1..] == D + E
    ensures T == A + (B + ([Sym(';')] + D)) + E
  {
    assert C == [Sym(';')] + C[1..];
  }

  lemma {:induction false} LexSigns(text: seq<char>, a: nat)
    requires a <= |text|
    ensures SignsOk(Lex(text, a))
    decreases |text| - a
  {
    if a < |text| {
      if Space(text[a]) {
        LexSigns(text, a + 1);
      } else if text[a] == '>' && a + 1 < |text| && text[a + 1] == '>' {
        LexSigns(text, a + 2);
      } else if Symbol(text[a]) {
        LexSigns(text, a + 1);
      } else {
        LexSigns(text, RunEnd(text, a));
      }
    }
  }

  /** The tree reads as the line. */
  ghost predicate Reads(t: Line, text: seq<char>) {
    LineFits(t) && PrintLine(t) == Lex(text, 0)
  }

  /** No line has two meanings. */
  lemma Unambiguous(text: seq<char>, t: Line, t': Line)
    requires Reads(t, text) && Reads(t', text)
    ensures LineMeans(t) == LineMeans(t')
  {
    LineParse(t, []);
    LineParse(t', []);
    assert PrintLine(t) + [] == PrintLine(t) && PrintLine(t') + [] == PrintLine(t');
  }

  // ---- the words of a command ----

  ghost function Tokens(c: Cmd): seq<Span> {
    match c
    case Exec(argv) => argv
    case Redir(d, r) => Tokens(d) + [r.file]
    case Pipe(l, r) => Tokens(l) + Tokens(r)
    case List(l, r) => Tokens(l) + Tokens(r)
    case Back(d) => Tokens(d)
  }

  /** The words among tokens. */
  ghost function Spans(T: seq<Tok>): seq<Span> {
    if T == [] then [] else (if T[0].Word? then [T[0].span] else []) + Spans(T[1..])
  }

  lemma {:induction false} SpansAdd(S: seq<Tok>, T: seq<Tok>)
    ensures Spans(S + T) == Spans(S) + Spans(T)
    decreases |S|
  {
    if S == [] {
      assert S + T == T;
    } else {
      assert (S + T)[1..] == S[1..] + T && (S + T)[0] == S[0];
      SpansAdd(S[1..], T);
      Regroup(if S[0].Word? then [S[0].span] else [], Spans(S[1..]), Spans(T));
    }
  }

  lemma {:induction false} RsWords(c: Cmd, rs: seq<Redirect>)
    ensures multiset(Tokens(Wrap(c, rs))) == multiset(Tokens(c)) + multiset(Spans(PrintRs(rs)))
    decreases |rs|
  {
    if rs != [] {
      RsWords(Redir(c, rs[0]), rs[1..]);
      var A := [Sym(Sign(rs[0].mode)), Word(rs[0].file)];
      SpansAdd(A, PrintRs(rs[1..]));
      assert A[1..] == [Word(rs[0].file)] && A[1..][1..] == [];
      assert Spans(A) == [rs[0].file];
    }
  }

  lemma {:induction false} ItemsWords(items: seq<Item>)
    ensures multiset(Spans(PrintItems(items))) == multiset(Words(items)) + multiset(Spans(PrintRs(Redirects(items))))
    decreases |items|
  {
    if items != [] {
      ItemsWords(items[1..]);
      match items[0] {
        case Arg(w) =>
          SpansAdd([Word(w)], PrintItems(items[1..]));
          assert Spans([Word(w)]) == [w];
          assert Redirects(items) == Redirects(items[1..]);
        case To(r) =>
          var A := [Sym(Sign(r.mode)), Word(r.file)];
          SpansAdd(A, PrintItems(items[1..]));
          SpansAdd(A, PrintRs(Redirects(items[1..])));
          assert Redirects(items) == [r] + Redirects(items[1..]) && Redirects(items)[1..] == Redirects(items[1..]);
          assert PrintRs(Redirects(items)) == A + PrintRs(Redirects(items[1..]));
          assert Words(items) == Words(items[1..]);
      }
    }
  }

  lemma {:induction false} BacksWords(c: Cmd, n: nat)
    ensures Tokens(Backs(c, n)) == Tokens(c)
    decreases n
  {
    if n > 0 {
      BacksWords(Back(c), n - 1);
    }
  }

  lemma {:induction false} AmpsWords(n: nat)
    ensures Spans(Amps(n)) == []
  {
    if n > 0 {
      AmpsWords(n - 1);
      assert Amps(n)[1..] == Amps(n - 1);
    }
  }

  lemma SymWords(c: char, T: seq<Tok>)
    ensures Spans([Sym(c)] + T) == Spans(T)
  {
    assert ([Sym(c)] + T)[1..] == T;
  }

  lemma {:induction false} UnitWords(u: Unit)
    ensures multiset(Tokens(UnitMeans(u))) == multiset(Spans(PrintUnit(u)))
    decreases u, 0
  {
    match u {
      case Simple(items) =>
        ItemsWords(items);
        RsWords(Exec(Words(items)), Redirects(items));
      case Block(line, rs) =>
        LineWords(line);
        RsWords(LineMeans(line), rs);
        SymWords('(', PrintLine(line) + ([Sym(')')] + PrintRs(rs)));
        SpansAdd(PrintLine(line), [Sym(')')] + PrintRs(rs));
        SymWords(')', PrintRs(rs));
    }
  }

  lemma {:induction false} ChainWords(ch: Chain)
    ensures multiset(Tokens(ChainMeans(ch))) == multiset(Spans(PrintChain(ch)))
    decreases ch, 1
  {
    UnitWords(ch.u);
    if ch.Piped? {
      ChainWords(ch.next);
      SpansAdd(PrintUnit(ch.u), [Sym('|')] + PrintChain(ch.next));
      SymWords('|', PrintChain(ch.next));
    }
  }

  /** A command holds exactly the words it was written with. */
  lemma {:induction false} LineWords(t: Line)
    ensures multiset(Tokens(LineMeans(t))) == multiset(Spans(PrintLine(t)))
    decreases t, 2
  {
    hide ChainMeans, PrintChain, Amps, Backs, Spans;
    ChainWords(t.chain);
    BacksWords(ChainMeans(t.chain), t.bg);
    AmpsWords(t.bg);
    match t {
      case Last(ch, bg) => SpansAdd(PrintChain(ch), Amps(bg));
      case Then(ch, bg, next) =>
        LineWords(next);
        SpansAdd(PrintChain(ch), Amps(bg) + ([Sym(';')] + PrintLine(next)));
        SpansAdd(Amps(bg), [Sym(';')] + PrintLine(next));
        SymWords(';', PrintLine(next));
        hide LineMeans, PrintLine;
    }
  }

  lemma {:induction false} SpansIn(T: seq<Tok>, w: Span)
    ensures w in Spans(T) <==> Word(w) in T
    decreases |T|
  {
    if T != [] {
      SpansIn(T[1..], w);
      assert T == [T[0]] + T[1..];
    }
  }

  /** The words of a line's command are words of the line. */
  lemma AreWords(text: seq<char>, t: Line)
    requires PrintLine(t) == Lex(text, 0)
    ensures forall w | w in Tokens(LineMeans(t)) :: IsWord(text, w)
  {
    LineWords(t);
    LexWords(text, 0);
    forall w | w in Tokens(LineMeans(t)) ensures IsWord(text, w) {
      assert w in multiset(Tokens(LineMeans(t)));
      assert w in Spans(PrintLine(t));
      SpansIn(PrintLine(t), w);
      assert Word(w) in Lex(text, 0);
    }
  }

  // ---- terminators ----

  /** Some word ends at i. */
  ghost predicate End(tokens: seq<Span>, i: int) {
    exists t :: t in tokens && t.1 == i
  }

  lemma EndSnoc(s: seq<Span>, t: Span)
    ensures forall i :: End(s + [t], i) <==> End(s, i) || i == t.1
  {
    EndAdd(s, [t]);
    assert t in [t];
  }

  lemma EndAdd(s: seq<Span>, t: seq<Span>)
    ensures forall i :: End(s + t, i) <==> End(s, i) || End(t, i)
    ensures forall x :: x in s || x in t ==> x in s + t
  {
    forall i ensures End(s + t, i) <==> End(s, i) || End(t, i) {
      if End(s, i) {
        var x :| x in s && x.1 == i;
        assert x in s + t;
      }
      if End(t, i) {
        var x :| x in t && x.1 == i;
        assert x in s + t;
      }
    }
  }

  /** The string that starts at q, up to its NUL. */
  ghost function CString(b: seq<char>, q: nat): seq<char>
    decreases |b| - q
  {
    if q >= |b| || b[q] == NUL then [] else [b[q]] + CString(b, q + 1)
  }

  /** No terminator lands in a word, so that the word can be read as it stood in the line. */
  lemma Readable(text: seq<char>, tokens: seq<Span>, b: seq<char>, t: Span)
    requires |b| == |text| + 1 && (forall x | x in tokens :: IsWord(text, x)) && t in tokens
    requires forall i | 0 <= i < |text| :: text[i] != NUL && b[i] == if End(tokens, i) then NUL else text[i]
    requires b[|text|] == NUL
    ensures t.0 < t.1 <= |text| && CString(b, t.0) == text[t.0..t.1]
  {
    assert IsWord(text, t) && End(tokens, t.1);
    forall i | t.0 <= i < t.1 ensures b[i] == text[i] {
      forall x | x in tokens ensures x.1 != i {
        assert IsWord(text, x) && Plain(text[i]);
      }
    }
    ReadFrom(text, b, t.0, t.1);
  }

  lemma {:induction false} ReadFrom(text: seq<char>, b: seq<char>, a: nat, e: nat)
    requires a <= e < |b| && e <= |text| && b[e] == NUL && forall i | a <= i < e :: b[i] == text[i] && text[i] != NUL
    ensures CString(b, a) == text[a..e]
    decreases e - a
  {
    if a < e {
      ReadFrom(text, b, a + 1, e);
      assert text[a..e] == [text[a]] + text[a + 1..e];
    }
  }

  // ---- the code ----

  /** The parser: the line, and the cursor that all its functions share. */
  class Parser {
    const buf: array<char>
    var s: nat
    /** The line without its NUL. */
    ghost const text: seq<char>

    ghost predicate Valid()
      reads this, buf
    {
      && buf.Length == |text| + 1 && buf[..|text|] == text && buf[|text|] == NUL
      && (forall i | 0 <= i < |text| :: text[i] != NUL) && s <= |text|
    }

    constructor (line: array<char>)
      requires line.Length > 0 && line[line.Length - 1] == NUL && forall i | 0 <= i < line.Length - 1 :: line[i] != NUL
      ensures Valid() && s == 0 && buf == line && text == line[..line.Length - 1]
    {
      buf := line;
      s := 0;
      text := line[..line.Length - 1];
    }

    /** The tokens from the cursor on. */
    ghost function Rest(): seq<Tok>
      requires Valid()
      reads this, buf
    {
      Lex(text, s)
    }

    /** The code did what the parser on tokens does. */
    ghost predicate Agrees(r: Parsed, o: Out)
      requires Valid()
      reads this, buf
    {
      match o
      case Got(c, rest) => r == Ok(c) && Rest() == rest
      case Fail(w) => r == Panic(w)
    }

    /** The loop that both gettoken and peek use. */
    method Skip(from: nat) returns (i: nat)
      requires Valid() && from <= |text|
      ensures from <= i <= |text| && Lex(text, from) == Lex(text, i) && (i < |text| ==> !Space(text[i]))
    {
      i := from;
      while i < buf.Length - 1 && Space(buf[i])
        invariant from <= i <= |text| && forall k | from <= k < i :: Space(text[k])
      {
        i := i + 1;
      }
      Blanks(text, from, i);
    }

    /** The next token: '\\0' at the end of the line, 'a' for a word, else the symbol, '+' for >>. */
    method GetToken() returns (tok: char, q: nat, e: nat)
      requires Valid()
      modifies this`s
      ensures Valid() && old(s) <= s
      ensures tok == NUL ==> old(Rest()) == Rest() == []
      ensures tok != NUL ==> s > old(s) && old(Rest()) == [if tok == 'a' then Word((q, e)) else Sym(tok)] + Rest()
    {
      hide Lex;
      q := Skip(s);
      tok, e := Scan(q);
      var i := Skip(e);
      s := i;
    }

    /** The switch of gettoken, on the character at q. */
    method Scan(q: nat) returns (tok: char, e: nat)
      requires Valid() && q <= |text| && (q < |text| ==> !Space(text[q]))
      ensures q <= e <= |text|
      ensures tok == NUL ==> q == e && Lex(text, q) == []
      ensures tok != NUL ==> q < e && Lex(text, q) == [if tok == 'a' then Word((q, e)) else Sym(tok)] + Lex(text, e)
    {
      var i := q;
      tok := buf[i];
      if Symbol(buf[i]) {
        i := i + 1;
        if tok == '>' && buf[i] == '>' {
          tok := '+';
          i := i + 1;
        }
      } else if buf[i] != NUL {
        tok := 'a';
        i := Run(i);
        SameEnd(text, q, i);
      }
      e := i;
    }

    method Run(from: nat) returns (i: nat)
      requires Valid() && from < |text| && Plain(text[from])
      ensures from < i <= |text| && (forall k | from <= k < i :: Plain(text[k])) && (i < |text| ==> !Plain(text[i]))
    {
      i := from;
      while i < buf.Length - 1 && !Space(buf[i]) && !Symbol(buf[i])
        invariant from <= i <= |text| && forall k | from <= k < i :: Plain(text[k])
      {
        i := i + 1;
      }
    }

    /** Skips blanks and tells whether the next token starts with one of toks. */
    method Peek(toks: string) returns (b: bool)
      requires Valid() && forall c | c in toks :: Symbol(c)
      modifies this`s
      ensures Valid() && old(s) <= s && Rest() == old(Rest()) && (Rest() == [] <==> s == |text|)
      ensures b <==> Starts(Rest(), toks)
    {
      var i := Skip(s);
      s := i;
      b := buf[s] != NUL && buf[s] in toks;
    }

    // ---- grammar ----

    method ParseRedirs(c: Cmd) returns (r: Parsed)
      requires Valid()
      modifies this`s
      ensures Valid() && old(s) <= s
      ensures Agrees(r, Redirs(c, old(Rest())))
    {
      hide Lex;
      var cmd := c;
      var more := Peek("<>");
      while more
        invariant Valid() && old(s) <= s && Redirs(c, old(Rest())) == Redirs(cmd, Rest())
        invariant more == Starts(Rest(), "<>")
        decreases |text| - s
      {
        ghost var T := Rest();
        var tok, q0, e0 := GetToken();
        ghost var T1 := Rest();
        var tok2, q, e := GetToken();
        if tok2 != 'a' {
          return Panic("missing file for redirection");
        }
        assert T[1] == T1[0] && T[2..] == Rest();
        cmd := Redir(cmd, Redirect((q, e), if tok == '<' then Read else if tok == '>' then Create else Append));
        more := Peek("<>");
      }
      return Ok(cmd);
    }

    method ParseExec() returns (r: Parsed)
      requires Valid()
      modifies this`s
      ensures Valid() && old(s) <= s
      ensures Agrees(r, Units(old(Rest())))
      decreases |text| - s, 1
    {
      hide Lex;
      var block := Peek("(");
      if block {
        r := ParseBlock();
        return;
      }
      var argc := 0;
      r := ParseRedirs(Exec([]));
      if r.Panic? {
        return;
      }
      var stop := Peek("|)&;");
      while !stop
        invariant Valid() && old(s) <= s && r.Ok? && Units(old(Rest())) == Args(r.cmd, argc, Rest())
        invariant stop == Starts(Rest(), "|)&;")
        decreases |text| - s
      {
        ghost var T := Rest();
        var tok, q, e := GetToken();
        if tok == NUL {
          break;
        }
        if tok != 'a' {
          return Panic("syntax");
        }
        argc := argc + 1;
        if argc >= MAXARGS {
          return Panic("too many args");
        }
        assert T[1..] == Rest();
        r := ParseRedirs(AddArg(r.cmd, (q, e)));
        if r.Panic? {
          return;
        }
        stop := Peek("|)&;");
      }
    }

    method ParseBlock() returns (r: Parsed)
      requires Valid()
      modifies this`s
      ensures Valid() && old(s) <= s
      ensures Agrees(r, Blocks(old(Rest())))
      decreases |text| - s, 0
    {
      hide Lex;
      var b := Peek("(");
      if !b {
        return Panic("parseblock");
      }
      ghost var T := Rest();
      var tok, q, e := GetToken();
      assert T[1..] == Rest();
      r := ParseLine();
      if r.Panic? {
        return;
      }
      b := Peek(")");
      if !b {
        return Panic("syntax - missing )");
      }
      ghost var T1 := Rest();
      var tok2, q2, e2 := GetToken();
      assert T1[1..] == Rest();
      r := ParseRedirs(r.cmd);
    }

    method ParsePipe() returns (r: Parsed)
      requires Valid()
      modifies this`s
      ensures Valid() && old(s) <= s
      ensures Agrees(r, Chains(old(Rest())))
      decreases |text| - s, 2
    {
      hide Lex;
      r := ParseExec();
      if r.Panic? {
        return;
      }
      var more := Peek("|");
      if more {
        ghost var T := Rest();
        var tok, q, e := GetToken();
        assert T[1..] == Rest();
        var right := ParsePipe();
        if right.Panic? {
          return right;
        }
        r := Ok(Pipe(r.cmd, right.cmd));
      }
    }

    method ParseLine() returns (r: Parsed)
      requires Valid()
      modifies this`s
      ensures Valid() && old(s) <= s
      ensures Agrees(r, Lines(old(Rest())))
      decreases |text| - s, 3
    {
      hide Lex;
      r := ParsePipe();
      if r.Panic? {
        return;
      }
      ghost var o := TakeAmps(r.cmd, Rest());
      var more := Peek("&");
      while more
        invariant Valid() && old(s) <= s && r.Ok? && o == TakeAmps(r.cmd, Rest()) && more == Starts(Rest(), "&")
        decreases |text| - s
      {
        ghost var T := Rest();
        var tok, q, e := GetToken();
        assert T[1..] == Rest();
        r := Ok(Back(r.cmd));
        more := Peek("&");
      }
      more := Peek(";");
      if more {
        ghost var T := Rest();
        var tok, q, e := GetToken();
        assert T[1..] == Rest();
        var right := ParseLine();
        if right.Panic? {
          return right;
        }
        r := Ok(List(r.cmd, right.cmd));
      }
    }

    /** nulterminate: a NUL after every word of the command, and no other change. */
    method NulTerminate(c: Cmd)
      requires forall t | t in Tokens(c) :: t.1 < buf.Length
      modifies buf
      ensures forall i | 0 <= i < buf.Length :: buf[i] == if End(Tokens(c), i) then NUL else old(buf[i])
      decreases c
    {
      match c {
        case Exec(argv) =>
          var k := 0;
          while k < |argv|
            invariant 0 <= k <= |argv|
            invariant forall i | 0 <= i < buf.Length :: buf[i] == if End(argv[..k], i) then NUL else old(buf[i])
          {
            assert argv[k] in Tokens(c);
            buf[argv[k].1] := NUL;
            EndSnoc(argv[..k], argv[k]);
            assert argv[..k + 1] == argv[..k] + [argv[k]];
            k := k + 1;
          }
          assert argv[..k] == argv;
        case Redir(d, r) =>
          EndAdd(Tokens(d), [r.file]);
          NulTerminate(d);
          assert r.file in Tokens(c);
          buf[r.file.1] := NUL;
          EndSnoc(Tokens(d), r.file);
        case Pipe(l, r) =>
          EndAdd(Tokens(l), Tokens(r));
          NulTerminate(l);
          NulTerminate(r);
        case List(l, r) =>
          EndAdd(Tokens(l), Tokens(r));
          NulTerminate(l);
          NulTerminate(r);
        case Back(d) =>
          NulTerminate(d);
      }
    }

    /** parsecmd: what some tree that reads as the line means, or a panic if there is none; and each
        word of the command can now be read as a C string from where it starts. */
    method ParseCmd() returns (r: Parsed)
      requires Valid() && s == 0
      modifies this`s, buf
      ensures r.Ok? <==> exists t :: Reads(t, text)
      ensures forall t | Reads(t, text) :: r == Ok(LineMeans(t))
      ensures r.Ok? ==> forall w | w in Tokens(r.cmd) :: w.0 < w.1 <= |text| && CString(buf[..], w.0) == text[w.0..w.1]
      ensures r.Panic? ==> buf[..] == old(buf[..])
    {
      hide Lex;
      Decides(text);
      r := ParseLine();
      if r.Panic? {
        return;
      }
      var b := Peek("");
      if s != buf.Length - 1 {
        return Panic("syntax");
      }
      ghost var t :| Reads(t, text) && LineMeans(t) == r.cmd;
      AreWords(text, t);
      NulTerminate(r.cmd);
      forall w | w in Tokens(r.cmd) ensures w.0 < w.1 <= |text| && CString(buf[..], w.0) == text[w.0..w.1] {
        Readable(text, Tokens(r.cmd), buf[..], w);
      }
    }
  }

  /** The parser on tokens takes a whole line exactly when some tree reads as the line, and then
      gives that tree's meaning. */
  lemma Decides(text: seq<char>)
    ensures var o := Lines(Lex(text, 0));
      && (o.Got? && o.rest == [] ==> exists t :: Reads(t, text) && LineMeans(t) == o.c)
      && (forall t | Reads(t, text) :: o == Got(LineMeans(t), []))
  {
    var T := Lex(text, 0);
    LexSigns(text, 0);
    if Lines(T).Got? && Lines(T).rest == [] {
      var t := LineTree(T);
      assert PrintLine(t) + [] == PrintLine(t);
      assert Reads(t, text);
    }
    forall t | Reads(t, text) ensures Lines(T) == Got(LineMeans(t), []) {
      LineParse(t, []);
      assert PrintLine(t) + [] == PrintLine(t);
    }
  }
}
