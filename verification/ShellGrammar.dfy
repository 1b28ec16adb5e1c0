/** What the shell's parser accepts (src/user/sh/main.c): its tokens, its grammar, and the
    parser as functions that accept exactly the grammar. */
module ShellGrammar {

  const MAXARGS := 10
  const NUL := '\0'

  // ---------- characters and tokens ----------

  /** strchr(whitespace, c), for a character of the line. */
  predicate IsSpace(c: char) { c == ' ' || c == '\t' || c == '\r' || c == '\n' || c == '\U{000B}' }

  predicate IsSymbol(c: char) { c == '<' || c == '|' || c == '>' || c == '&' || c == ';' || c == '(' || c == ')' }

  /** A line has no NUL; its end reads as one. */
  type Line = s: seq<char> | NUL !in s

  function At(s: Line, p: nat): (c: char) {
    if p < |s| then s[p] else NUL
  }

  /** The first place from `p` on that is not white space. */
  function Skip(s: Line, p: nat): (q: nat)
    requires p <= |s|
    ensures p <= q <= |s| && (q < |s| ==> !IsSpace(s[q]))
    decreases |s| - p
  {
    if p < |s| && IsSpace(s[p]) then Skip(s, p + 1) else p
  }

  /** The end of the word that begins at `p`. */
  function WordEnd(s: Line, p: nat): (q: nat)
    requires p <= |s|
    ensures p <= q <= |s| && (forall i :: p <= i < q ==> !IsSpace(s[i]) && !IsSymbol(s[i]))
    ensures q < |s| ==> IsSpace(s[q]) || IsSymbol(s[q])
    decreases |s| - p
  {
    if p < |s| && !IsSpace(s[p]) && !IsSymbol(s[p]) then WordEnd(s, p + 1) else p
  }

  datatype Token = End | Word | Append | Symbol(c: char)

  /** The token at `p`, a place that is not white space, and where it ends. */
  function TokenAt(s: Line, p: nat): (t: (Token, nat))
    requires p <= |s| && (p < |s| ==> !IsSpace(s[p]))
    ensures p <= t.1 <= |s| && (t.0 == End <==> p == |s|) && (p < |s| ==> p < t.1)
    ensures t.0 == Word ==> t.1 == WordEnd(s, p)
    ensures t.0.Symbol? ==> p < |s| && t.0.c == s[p] && IsSymbol(s[p])
    ensures t.0 == Append ==> s[p] == '>'
    ensures p < |s| && !IsSymbol(s[p]) ==> t.0 == Word
  {
    if p == |s| then (End, p)
    else if s[p] == '>' && At(s, p + 1) == '>' then (Append, p + 2)
    else if IsSymbol(s[p]) then (Symbol(s[p]), p + 1)
    else (Word, WordEnd(s, p))
  }

  /** A word of the line. */
  datatype Span = Span(q: nat, eq: nat)

  /** The words of the line from `p` on, in order. */
  function Words(s: Line, p: nat): (ws: seq<Span>)
    requires p <= |s|
    decreases |s| - p
  {
    var q := Skip(s, p);
    var (t, e) := TokenAt(s, q);
    if t == End then []
    else if t == Word then [Span(q, e)] + Words(s, e)
    else Words(s, e)
  }

  lemma {:induction false} SkipTwice(s: Line, p: nat)
    requires p <= |s|
    ensures Skip(s, Skip(s, p)) == Skip(s, p) && Words(s, Skip(s, p)) == Words(s, p)
  {
  }

  predicate AtToken(s: Line, p: nat) {
    p <= |s| && (p < |s| ==> !IsSpace(s[p]))
  }

  /** Where the token behind the one at `p` begins. */
  function Next(s: Line, p: nat): (q: nat)
    requires AtToken(s, p)
    ensures p <= q && AtToken(s, q) && (p < |s| ==> p < q)
  {
    Skip(s, TokenAt(s, p).1)
  }

  /** Symbol `c` stands at `p`. */
  predicate Sees(s: Line, p: nat, c: char) {
    p < |s| && s[p] == c
  }

  /** The words of a line stand in order, with something between any two of them. */
  lemma {:induction false} WordsInOrder(s: Line, p: nat)
    requires p <= |s|
    ensures forall i :: 0 <= i < |Words(s, p)| ==> p <= Words(s, p)[i].q < Words(s, p)[i].eq <= |s|
    ensures forall i :: 0 <= i < |Words(s, p)| ==> Words(s, p)[i].eq == WordEnd(s, Words(s, p)[i].q)
    ensures forall i :: 0 <= i < |Words(s, p)| ==> !IsSpace(s[Words(s, p)[i].q]) && !IsSymbol(s[Words(s, p)[i].q])
    ensures forall i, j :: 0 <= i < j < |Words(s, p)| ==> Before(Words(s, p)[i], Words(s, p)[j])
    decreases |s| - p
  {
    var q := Skip(s, p);
    var (t, e) := TokenAt(s, q);
    if t != End {
      WordsInOrder(s, e);
      var rest := Words(s, e);
      if t == Word {
        assert Words(s, p) == [Span(q, e)] + rest;
        forall j | 0 <= j < |rest| ensures Before(Span(q, e), rest[j]) {
          assert rest[j].q != e;
        }
      }
    }
  }

  /** Words parsed earlier stand before words parsed later. */
  lemma {:induction false} EarlierBefore(s: Line, p: nat, a: seq<Span>, b: seq<Span>, rest: seq<Span>)
    requires p <= |s| && Words(s, p) == a + b + rest
    ensures AllBefore(multiset(a), multiset(b))
    ensures forall x, y :: x in a && y in b ==> Before(x, y)
  {
    WordsInOrder(s, p);
    var ws := Words(s, p);
    forall x, y | x in a && y in b ensures Before(x, y) {
      var i :| 0 <= i < |a| && a[i] == x;
      var j :| 0 <= j < |b| && b[j] == y;
      assert ws[i] == x && ws[|a| + j] == y;
    }
  }

  // ---------- commands ----------

  datatype Cmd =
    | Exec(args: seq<Span>)
    | Redir(cmd: Cmd, file: Span, out: bool)
    | Pipe(left: Cmd, right: Cmd)
    | List(left: Cmd, right: Cmd)
    | Back(cmd: Cmd)

  /** The words that a command refers to. */
  function Spans(c: Cmd): (m: multiset<Span>) {
    match c
    case Exec(args) => multiset(args)
    case Redir(c, file, _) => Spans(c) + multiset{file}
    case Pipe(l, r) => Spans(l) + Spans(r)
    case List(l, r) => Spans(l) + Spans(r)
    case Back(c) => Spans(c)
  }

  predicate Before(a: Span, b: Span) { a.eq < b.q }

  ghost predicate AllBefore(a: multiset<Span>, b: multiset<Span>) {
    forall x, y :: x in a && y in b ==> Before(x, y)
  }

  ghost predicate Increasing(ws: seq<Span>) {
    forall i, j :: 0 <= i < j < |ws| ==> Before(ws[i], ws[j])
  }

  /** Arguments stand in the order of the line, and so do the files of redirections; what is
      on the left of | or ; stands before what is on the right. */
  ghost predicate InOrder(c: Cmd) {
    match c
    case Exec(args) => Increasing(args)
    case Redir(c1, file, _) =>
      && InOrder(c1)
      && (c1.Redir? ==> Before(c1.file, file))
      && (c1.Pipe? || c1.List? || c1.Back? ==> AllBefore(Spans(c1), multiset{file}))
    case Pipe(l, r) => InOrder(l) && InOrder(r) && AllBefore(Spans(l), Spans(r))
    case List(l, r) => InOrder(l) && InOrder(r) && AllBefore(Spans(l), Spans(r))
    case Back(c1) => InOrder(c1)
  }

  /** Every simple command has room for its arguments. */
  predicate FewArgs(c: Cmd) {
    match c
    case Exec(args) => |args| < MAXARGS
    case Redir(c1, _, _) => FewArgs(c1)
    case Pipe(l, r) => FewArgs(l) && FewArgs(r)
    case List(l, r) => FewArgs(l) && FewArgs(r)
    case Back(c1) => FewArgs(c1)
  }

  datatype Redirection = To(file: Span, out: bool)

  /** The nodes that parseredirs puts around a command. */
  function Wrap(c: Cmd, rs: seq<Redirection>): (r: Cmd) {
    if rs == [] then c
    else Redir(Wrap(c, rs[..|rs| - 1]), rs[|rs| - 1].file, rs[|rs| - 1].out)
  }

  function Files(rs: seq<Redirection>): (m: multiset<Span>) {
    if rs == [] then multiset{} else Files(rs[..|rs| - 1]) + multiset{rs[|rs| - 1].file}
  }

  lemma {:induction false} WrapSpans(c: Cmd, rs: seq<Redirection>)
    ensures Spans(Wrap(c, rs)) == Spans(c) + Files(rs)
  {
    if rs != [] { WrapSpans(c, rs[..|rs| - 1]); }
  }

  lemma {:induction false} WrapFewArgs(c: Cmd, rs: seq<Redirection>)
    ensures FewArgs(Wrap(c, rs)) <==> FewArgs(c)
  {
    if rs != [] { WrapFewArgs(c, rs[..|rs| - 1]); }
  }

  // ---------- the grammar ----------

  predicate IsRedirection(t: Token) { t == Symbol('<') || t == Symbol('>') || t == Append }

  /** From `p` to `q` stand exactly the words `args` and the redirections `rs`, each in this
      order: a redirection is <, > or >> and the word behind it. */
  predicate Items(s: Line, p: nat, q: nat, args: seq<Span>, rs: seq<Redirection>)
    requires AtToken(s, p)
    decreases |s| - p
  {
    var (t, e) := TokenAt(s, p);
    var f := Next(s, p);
    if p == q then args == [] && rs == []
    else if t == Word then args != [] && args[0] == Span(p, e) && Items(s, f, q, args[1..], rs)
    else if IsRedirection(t) then
      && rs != [] && TokenAt(s, f).0 == Word && rs[0] == To(Span(f, TokenAt(s, f).1), t != Symbol('<'))
      && Items(s, Next(s, f), q, args, rs[1..])
    else false
  }

  datatype Kind = LineKind | BackKind | PipeKind | ExecKind

  function Rank(k: Kind): (n: nat) {
    match k
    case LineKind => 3
    case BackKind => 2
    case PipeKind => 1
    case ExecKind => 0
  }

  /** The grammar: from `p` to `q` the line is the command `c`.
        line: back, or back ; line        back: pipe, or back &
        pipe: exec, or exec | pipe        exec: words and redirections, or ( line ) redirections */
  ghost predicate Derives(k: Kind, s: Line, p: nat, q: nat, c: Cmd)
    decreases if p <= q then q - p else 0, Rank(k)
  {
    AtToken(s, p) && AtToken(s, q) && p <= q &&
    match k
    case LineKind =>
      || Derives(BackKind, s, p, q, c)
      || (c.List? && exists m: nat ::
              && p <= m < q && Sees(s, m, ';') && Next(s, m) <= q
              && Derives(BackKind, s, p, m, c.left) && Derives(LineKind, s, Next(s, m), q, c.right))
    case BackKind =>
      || Derives(PipeKind, s, p, q, c)
      || (c.Back? && exists m: nat ::
              && p <= m < q && Sees(s, m, '&') && Next(s, m) == q
              && Derives(BackKind, s, p, m, c.cmd))
    case PipeKind =>
      || Derives(ExecKind, s, p, q, c)
      || (c.Pipe? && exists m: nat ::
              && p <= m < q && Sees(s, m, '|') && Next(s, m) <= q
              && Derives(ExecKind, s, p, m, c.left) && Derives(PipeKind, s, Next(s, m), q, c.right))
    case ExecKind =>
      || IsSimple(s, p, q, c)
      || (Sees(s, p, '(') && exists m: nat, c0, rs
            {:trigger Derives(LineKind, s, Next(s, p), m, c0), Wrap(c0, rs)} ::
              && Next(s, p) <= m < q && Sees(s, m, ')') && Next(s, m) <= q
              && Derives(LineKind, s, Next(s, p), m, c0) && c == Wrap(c0, rs) && Items(s, Next(s, m), q, [], rs))
  }

  ghost predicate IsSimple(s: Line, p: nat, q: nat, c: Cmd)
    requires AtToken(s, p)
  {
    exists args, rs :: c == Wrap(Exec(args), rs) && Items(s, p, q, args, rs)
  }

  // ---------- the parser as functions ----------

  datatype Scan = Stop | Go(args: seq<Span>, rs: seq<Redirection>, p: nat)

  datatype Tree = Fail | Done(c: Cmd, p: nat)

  /** A simple command ends here. */
  predicate Ends(s: Line, p: nat) {
    p >= |s| || Sees(s, p, '|') || Sees(s, p, ')') || Sees(s, p, '&') || Sees(s, p, ';')
  }

  /** Redirections as long as there are any. */
  function ScanRedirs(s: Line, p: nat, rs: seq<Redirection>): (r: Scan)
    requires AtToken(s, p)
    ensures r.Go? ==> r.args == [] && p <= r.p && AtToken(s, r.p) && !Sees(s, r.p, '<') && !Sees(s, r.p, '>')
    decreases |s| - p
  {
    var f := Next(s, p);
    if !Sees(s, p, '<') && !Sees(s, p, '>') then Go([], rs, p)
    else if TokenAt(s, f).0 != Word then Stop
    else ScanRedirs(s, Next(s, f), rs + [To(Span(f, TokenAt(s, f).1), s[p] == '>')])
  }

  /** Words and redirections up to the end of the simple command. */
  function ScanItems(s: Line, p: nat, args: seq<Span>, rs: seq<Redirection>): (r: Scan)
    requires AtToken(s, p)
    ensures r.Go? ==> p <= r.p && AtToken(s, r.p)
    decreases |s| - p
  {
    var f := Next(s, p);
    if Sees(s, p, '<') || Sees(s, p, '>') then
      if TokenAt(s, f).0 != Word then Stop
      else ScanItems(s, Next(s, f), args, rs + [To(Span(f, TokenAt(s, f).1), s[p] == '>')])
    else if Ends(s, p) then Go(args, rs, p)
    else if TokenAt(s, p).0 != Word || |args| + 1 >= MAXARGS then Stop
    else ScanItems(s, f, args + [Span(p, TokenAt(s, p).1)], rs)
  }

  function ExecTree(s: Line, p: nat): (r: Tree)
    requires AtToken(s, p)
    ensures r.Done? ==> p <= r.p && AtToken(s, r.p)
    decreases |s| - p, 0
  {
    if Sees(s, p, '(') then
      var l := LineTree(s, Next(s, p));
      if l.Fail? || !Sees(s, l.p, ')') then Fail
      else
        var r := ScanRedirs(s, Next(s, l.p), []);
        if r.Stop? then Fail else Done(Wrap(l.c, r.rs), r.p)
    else
      var r := ScanItems(s, p, [], []);
      if r.Stop? then Fail else Done(Wrap(Exec(r.args), r.rs), r.p)
  }

  function PipeTree(s: Line, p: nat): (r: Tree)
    requires AtToken(s, p)
    ensures r.Done? ==> p <= r.p && AtToken(s, r.p)
    decreases |s| - p, 1
  {
    var l := ExecTree(s, p);
    if l.Fail? || !Sees(s, l.p, '|') then l
    else
      var r := PipeTree(s, Next(s, l.p));
      if r.Fail? then Fail else Done(Pipe(l.c, r.c), r.p)
  }

  function BackTree(s: Line, p: nat, c: Cmd): (r: Tree)
    requires AtToken(s, p)
    ensures r.Done? && p <= r.p && AtToken(s, r.p) && !Sees(s, r.p, '&')
    decreases |s| - p
  {
    if Sees(s, p, '&') then BackTree(s, Next(s, p), Back(c)) else Done(c, p)
  }

  function LineTree(s: Line, p: nat): (r: Tree)
    requires AtToken(s, p)
    ensures r.Done? ==> p <= r.p && AtToken(s, r.p)
    decreases |s| - p, 2
  {
    var a := PipeTree(s, p);
    if a.Fail? then Fail
    else
      var l := BackTree(s, a.p, a.c);
      if !Sees(s, l.p, ';') then l
      else
        var r := LineTree(s, Next(s, l.p));
        if r.Fail? then Fail else Done(List(l.c, r.c), r.p)
  }

  /** parsecmd: a line, and nothing behind it. */
  function Parse(s: Line): (r: Tree) {
    var l := LineTree(s, Skip(s, 0));
    if l.Fail? || l.p != |s| then Fail else l
  }

  // ---------- only the grammar is accepted ----------

  lemma {:induction false} ScanRedirsSound(s: Line, p: nat, rs: seq<Redirection>)
    requires AtToken(s, p) && ScanRedirs(s, p, rs).Go?
    ensures var r := ScanRedirs(s, p, rs);
      |rs| <= |r.rs| && r.rs[..|rs|] == rs && Items(s, p, r.p, [], r.rs[|rs|..])
    decreases |s| - p
  {
    if Sees(s, p, '<') || Sees(s, p, '>') {
      var f := Next(s, p);
      var x := To(Span(f, TokenAt(s, f).1), s[p] == '>');
      ScanRedirsSound(s, Next(s, f), rs + [x]);
      var all := ScanRedirs(s, p, rs).rs;
      assert all[|rs|] == x && all[|rs|..][1..] == all[|rs| + 1..];
      assert all[..|rs|] == all[..|rs| + 1][..|rs|];
    }
  }

  lemma {:induction false} ScanItemsSound(s: Line, p: nat, args: seq<Span>, rs: seq<Redirection>)
    requires AtToken(s, p) && ScanItems(s, p, args, rs).Go? && |args| < MAXARGS
    ensures Scanned(s, p, args, rs, ScanItems(s, p, args, rs))
    decreases |s| - p
  {
    hide ScanItems;
    var f := Next(s, p);
    if Sees(s, p, '<') || Sees(s, p, '>') {
      ScanGoes(s, p, args, rs);
      ScanRedir(s, p, args, rs);
      hide Items;
      var x := To(Span(f, TokenAt(s, f).1), s[p] == '>');
      ScanItemsSound(s, Next(s, f), args, rs + [x]);
      RedirFront(s, p, args, rs, ScanItems(s, p, args, rs), x);
    } else if Ends(s, p) {
      ScanEnds(s, p, args, rs);
    } else {
      ScanGoes(s, p, args, rs);
      ScanWord(s, p, args, rs);
      hide Items;
      var x := Span(p, TokenAt(s, p).1);
      ScanItemsSound(s, f, args + [x], rs);
      WordFront(s, p, args, rs, ScanItems(s, p, args, rs), x);
    }
  }

  /** What a scan that succeeds has seen. */
  lemma {:induction false} ScanGoes(s: Line, p: nat, args: seq<Span>, rs: seq<Redirection>)
    requires AtToken(s, p) && ScanItems(s, p, args, rs).Go?
    ensures Sees(s, p, '<') || Sees(s, p, '>') ==> TokenAt(s, Next(s, p)).0 == Word
    ensures !(Sees(s, p, '<') || Sees(s, p, '>') || Ends(s, p)) ==> TokenAt(s, p).0 == Word && |args| + 1 < MAXARGS
  {
  }

  lemma {:induction false} ScanEnds(s: Line, p: nat, args: seq<Span>, rs: seq<Redirection>)
    requires AtToken(s, p) && Ends(s, p)
    ensures ScanItems(s, p, args, rs) == Go(args, rs, p)
  {
  }

  /** What ScanItemsSound promises of a result. */
  ghost predicate Scanned(s: Line, p: nat, args: seq<Span>, rs: seq<Redirection>, r: Scan)
    requires AtToken(s, p) && r.Go?
  {
    && |r.args| < MAXARGS && |args| <= |r.args| && r.args[..|args|] == args
    && |rs| <= |r.rs| && r.rs[..|rs|] == rs
    && Items(s, p, r.p, r.args[|args|..], r.rs[|rs|..])
  }

  lemma {:induction false} RedirFront(s: Line, p: nat, args: seq<Span>, rs: seq<Redirection>, r: Scan, x: Redirection)
    requires AtToken(s, p) && r.Go? && p < r.p && (Sees(s, p, '<') || Sees(s, p, '>'))
    requires var f := Next(s, p);
      && TokenAt(s, f).0 == Word && x == To(Span(f, TokenAt(s, f).1), s[p] == '>')
      && Scanned(s, Next(s, f), args, rs + [x], r)
    ensures Scanned(s, p, args, rs, r)
  {
    assert r.rs[|rs|] == x && r.rs[|rs|..][1..] == r.rs[|rs| + 1..];
    assert r.rs[..|rs|] == r.rs[..|rs| + 1][..|rs|];
  }

  lemma {:induction false} WordFront(s: Line, p: nat, args: seq<Span>, rs: seq<Redirection>, r: Scan, x: Span)
    requires AtToken(s, p) && r.Go? && p < r.p && TokenAt(s, p).0 == Word && x == Span(p, TokenAt(s, p).1)
    requires Scanned(s, Next(s, p), args + [x], rs, r)
    ensures Scanned(s, p, args, rs, r)
  {
    assert r.args[|args|] == x && r.args[|args|..][1..] == r.args[|args| + 1..];
    assert r.args[..|args|] == r.args[..|args| + 1][..|args|];
  }

  lemma {:induction false} ExecSound(s: Line, p: nat)
    requires AtToken(s, p) && ExecTree(s, p).Done?
    ensures var r := ExecTree(s, p); Derives(ExecKind, s, p, r.p, r.c) && FewArgs(r.c)
    decreases |s| - p, 0
  {
    if Sees(s, p, '(') {
      var l := LineTree(s, Next(s, p));
      LineSound(s, Next(s, p));
      ScanRedirsSound(s, Next(s, l.p), []);
      var r := ScanRedirs(s, Next(s, l.p), []);
      assert r.rs[0..] == r.rs;
      WrapFewArgs(l.c, r.rs);
    } else {
      ScanItemsSound(s, p, [], []);
      var r := ScanItems(s, p, [], []);
      assert r.rs[0..] == r.rs && r.args[0..] == r.args;
      WrapFewArgs(Exec(r.args), r.rs);
      assert IsSimple(s, p, r.p, Wrap(Exec(r.args), r.rs));
    }
  }

  lemma {:induction false} PipeSound(s: Line, p: nat)
    requires AtToken(s, p) && PipeTree(s, p).Done?
    ensures var r := PipeTree(s, p); Derives(PipeKind, s, p, r.p, r.c) && FewArgs(r.c)
    decreases |s| - p, 1
  {
    ExecSound(s, p);
    var l := ExecTree(s, p);
    if Sees(s, l.p, '|') {
      PipeSound(s, Next(s, l.p));
      var r := PipeTree(s, p);
      assert Derives(ExecKind, s, p, l.p, r.c.left);
    }
  }

  lemma {:induction false} BackSound(s: Line, p0: nat, p: nat, c: Cmd)
    requires AtToken(s, p) && Derives(BackKind, s, p0, p, c) && FewArgs(c)
    ensures var r := BackTree(s, p, c); Derives(BackKind, s, p0, r.p, r.c) && FewArgs(r.c)
    decreases |s| - p
  {
    if Sees(s, p, '&') {
      var b := Back(c);
      assert Derives(BackKind, s, p0, p, b.cmd);
      assert Derives(BackKind, s, p0, Next(s, p), b);
      BackSound(s, p0, Next(s, p), b);
    }
  }

  lemma {:induction false} LineSound(s: Line, p: nat)
    requires AtToken(s, p) && LineTree(s, p).Done?
    ensures var r := LineTree(s, p); Derives(LineKind, s, p, r.p, r.c) && FewArgs(r.c)
    decreases |s| - p, 2
  {
    PipeSound(s, p);
    var a := PipeTree(s, p);
    assert Derives(BackKind, s, p, a.p, a.c);
    BackSound(s, p, a.p, a.c);
    var l := BackTree(s, a.p, a.c);
    if Sees(s, l.p, ';') {
      LineSound(s, Next(s, l.p));
      var r := LineTree(s, p);
      assert Derives(BackKind, s, p, l.p, r.c.left);
    }
  }

  // ---------- all of the grammar is accepted ----------

  lemma {:induction false} ScanRedirsComplete(s: Line, p: nat, q: nat, rs: seq<Redirection>, more: seq<Redirection>)
    requires AtToken(s, p) && AtToken(s, q) && Items(s, p, q, [], more) && !Sees(s, q, '<') && !Sees(s, q, '>')
    ensures ScanRedirs(s, p, rs) == Go([], rs + more, q)
    decreases |s| - p
  {
    if p == q {
      assert rs + [] == rs;
    } else {
      ScanRedirsComplete(s, Next(s, Next(s, p)), q, rs + [more[0]], more[1..]);
      assert rs + [more[0]] + more[1..] == rs + more;
    }
  }

  lemma {:induction false} ScanItemsComplete(s: Line, p: nat, q: nat, args: seq<Span>, rs: seq<Redirection>,
                                             a: seq<Span>, r: seq<Redirection>)
    requires AtToken(s, p) && AtToken(s, q) && Items(s, p, q, a, r) && Ends(s, q) && |args| + |a| < MAXARGS
    ensures ScanItems(s, p, args, rs) == Go(args + a, rs + r, q)
    decreases |s| - p
  {
    if p == q {
      assert args + [] == args && rs + [] == rs;
    } else if TokenAt(s, p).0 == Word {
      ItemsWord(s, p, q, a, r);
      ScanWord(s, p, args, rs);
      hide Items, ScanItems;
      ScanItemsComplete(s, Next(s, p), q, args + [a[0]], rs, a[1..], r);
      assert args + [a[0]] + a[1..] == args + a;
    } else {
      ItemsRedir(s, p, q, a, r);
      ScanRedir(s, p, args, rs);
      hide Items, ScanItems;
      ScanItemsComplete(s, Next(s, Next(s, p)), q, args, rs + [r[0]], a, r[1..]);
      assert rs + [r[0]] + r[1..] == rs + r;
    }
  }

  /** Items do not begin with a parenthesis. */
  lemma {:induction false} NoItems(s: Line, p: nat, q: nat, args: seq<Span>, rs: seq<Redirection>)
    requires AtToken(s, p) && Items(s, p, q, args, rs) && Sees(s, p, '(')
    ensures p == q
  {
  }

  lemma {:induction false} ItemsWord(s: Line, p: nat, q: nat, args: seq<Span>, rs: seq<Redirection>)
    requires AtToken(s, p) && Items(s, p, q, args, rs) && p != q && TokenAt(s, p).0 == Word
    ensures args != [] && args[0] == Span(p, TokenAt(s, p).1) && Items(s, Next(s, p), q, args[1..], rs)
  {
  }

  lemma {:induction false} ItemsRedir(s: Line, p: nat, q: nat, args: seq<Span>, rs: seq<Redirection>)
    requires AtToken(s, p) && Items(s, p, q, args, rs) && p != q && TokenAt(s, p).0 != Word
    ensures var f := Next(s, p);
      && (Sees(s, p, '<') || Sees(s, p, '>')) && TokenAt(s, f).0 == Word
      && rs != [] && rs[0] == To(Span(f, TokenAt(s, f).1), s[p] == '>')
      && Items(s, Next(s, f), q, args, rs[1..])
  {
  }

  lemma {:induction false} ScanWord(s: Line, p: nat, args: seq<Span>, rs: seq<Redirection>)
    requires AtToken(s, p) && TokenAt(s, p).0 == Word && |args| + 1 < MAXARGS
    ensures ScanItems(s, p, args, rs) == ScanItems(s, Next(s, p), args + [Span(p, TokenAt(s, p).1)], rs)
  {
  }

  lemma {:induction false} ScanRedir(s: Line, p: nat, args: seq<Span>, rs: seq<Redirection>)
    requires AtToken(s, p) && (Sees(s, p, '<') || Sees(s, p, '>')) && TokenAt(s, Next(s, p)).0 == Word
    ensures var f := Next(s, p);
      ScanItems(s, p, args, rs) == ScanItems(s, Next(s, f), args, rs + [To(Span(f, TokenAt(s, f).1), s[p] == '>')])
  {
  }

  lemma {:induction false} ExecComplete(s: Line, p: nat, q: nat, c: Cmd)
    requires Derives(ExecKind, s, p, q, c) && FewArgs(c) && Ends(s, q)
    ensures ExecTree(s, p) == Done(c, q)
    decreases q - p, 0
  {
    hide Items, ScanItems, ScanRedirs, Wrap;
    if IsSimple(s, p, q, c) {
      var args, rs :| c == Wrap(Exec(args), rs) && Items(s, p, q, args, rs);
      WrapFewArgs(Exec(args), rs);
      if Sees(s, p, '(') { NoItems(s, p, q, args, rs); }
      ScanItemsComplete(s, p, q, [], [], args, rs);
      assert [] + args == args && [] + rs == rs;
    } else {
      var m: nat, c0, rs :| Next(s, p) <= m < q && Sees(s, m, ')') && Next(s, m) <= q
        && Derives(LineKind, s, Next(s, p), m, c0) && c == Wrap(c0, rs) && Items(s, Next(s, m), q, [], rs);
      WrapFewArgs(c0, rs);
      LineComplete(s, Next(s, p), m, c0);
      ScanRedirsComplete(s, Next(s, m), q, [], rs);
      assert [] + rs == rs;
    }
  }

  lemma {:induction false} PipeComplete(s: Line, p: nat, q: nat, c: Cmd)
    requires Derives(PipeKind, s, p, q, c) && FewArgs(c) && Ends(s, q) && !Sees(s, q, '|')
    ensures PipeTree(s, p) == Done(c, q)
    decreases q - p, 1
  {
    if Derives(ExecKind, s, p, q, c) {
      ExecComplete(s, p, q, c);
    } else {
      var m: nat :| p <= m < q && Sees(s, m, '|') && Next(s, m) <= q
        && Derives(ExecKind, s, p, m, c.left) && Derives(PipeKind, s, Next(s, m), q, c.right);
      ExecComplete(s, p, m, c.left);
      PipeComplete(s, Next(s, m), q, c.right);
    }
  }

  /** The loop over & comes by every command that has been derived so far. */
  lemma {:induction false} BackComplete(s: Line, p: nat, q: nat, c: Cmd)
    requires Derives(BackKind, s, p, q, c) && FewArgs(c) && Ends(s, q) && !Sees(s, q, '|')
    ensures var a := PipeTree(s, p); a.Done? && BackTree(s, a.p, a.c) == BackTree(s, q, c)
    decreases q - p, 2
  {
    if Derives(PipeKind, s, p, q, c) {
      PipeComplete(s, p, q, c);
    } else {
      var m: nat :| p <= m < q && Sees(s, m, '&') && Next(s, m) == q && Derives(BackKind, s, p, m, c.cmd);
      BackComplete(s, p, m, c.cmd);
    }
  }

  lemma {:induction false} LineComplete(s: Line, p: nat, q: nat, c: Cmd)
    requires Derives(LineKind, s, p, q, c) && FewArgs(c) && (q >= |s| || Sees(s, q, ')'))
    ensures LineTree(s, p) == Done(c, q)
    decreases q - p, 3
  {
    if Derives(BackKind, s, p, q, c) {
      BackComplete(s, p, q, c);
    } else {
      var m: nat :| p <= m < q && Sees(s, m, ';') && Next(s, m) <= q
        && Derives(BackKind, s, p, m, c.left) && Derives(LineKind, s, Next(s, m), q, c.right);
      BackComplete(s, p, m, c.left);
      LineComplete(s, Next(s, m), q, c.right);
    }
  }

  /** The parser accepts exactly the grammar, up to the number of arguments: it returns `c`
      if and only if the whole line is `c` and no simple command in it has too many. */
  lemma {:induction false} ParseIffDerives(s: Line, c: Cmd)
    ensures Parse(s) == Done(c, |s|) <==> Derives(LineKind, s, Skip(s, 0), |s|, c) && FewArgs(c)
  {
    var l := LineTree(s, Skip(s, 0));
    if l.Done? { LineSound(s, Skip(s, 0)); }
    if Derives(LineKind, s, Skip(s, 0), |s|, c) && FewArgs(c) { LineComplete(s, Skip(s, 0), |s|, c); }
  }

  /** So no line has two meanings. */
  lemma {:induction false} OneMeaning(s: Line, c: Cmd, d: Cmd)
    requires Derives(LineKind, s, Skip(s, 0), |s|, c) && FewArgs(c)
    requires Derives(LineKind, s, Skip(s, 0), |s|, d) && FewArgs(d)
    ensures c == d
  {
    ParseIffDerives(s, c);
    ParseIffDerives(s, d);
  }

  // ---------- every word exactly once, in order ----------

  /** `c` refers to exactly the words `ws` of the line from `p` to `q`, each once. */
  ghost predicate Refers(s: Line, p: nat, q: nat, c: Cmd, ws: seq<Span>)
    requires p <= |s| && q <= |s|
  {
    Words(s, p) == ws + Words(s, q) && multiset(ws) == Spans(c) && InOrder(c)
  }

  /** The files in the order of the redirections. */
  function FileList(rs: seq<Redirection>): (fs: seq<Span>)
    ensures |fs| == |rs|
    ensures forall i :: 0 <= i < |rs| ==> fs[i] == rs[i].file
  {
    seq(|rs|, i requires 0 <= i < |rs| => rs[i].file)
  }

  lemma {:induction false} FilesAre(rs: seq<Redirection>)
    ensures Files(rs) == multiset(FileList(rs))
  {
    if rs != [] {
      FilesAre(rs[..|rs| - 1]);
      assert FileList(rs) == FileList(rs[..|rs| - 1]) + [rs[|rs| - 1].file];
    }
  }

  lemma {:induction false} WordsStep(s: Line, p: nat)
    requires AtToken(s, p) && p < |s|
    ensures var (t, e) := TokenAt(s, p);
      Words(s, p) == (if t == Word then [Span(p, e)] else []) + Words(s, Next(s, p))
  {
    SkipTwice(s, TokenAt(s, p).1);
  }

  lemma {:induction false} ItemsWords(s: Line, p: nat, q: nat, args: seq<Span>, rs: seq<Redirection>)
    returns (ws: seq<Span>)
    requires AtToken(s, p) && AtToken(s, q) && Items(s, p, q, args, rs)
    ensures Words(s, p) == ws + Words(s, q) && multiset(ws) == multiset(args) + multiset(FileList(rs))
    ensures Increasing(args) && Increasing(FileList(rs))
    decreases |s| - p
  {
    hide Words, FileList;
    if p == q {
      ws := [];
    } else if TokenAt(s, p).0 == Word {
      ItemsWord(s, p, q, args, rs);
      hide Items, Increasing;
      WordsStep(s, p);
      var rest := ItemsWords(s, Next(s, p), q, args[1..], rs);
      ws := [args[0]] + rest;
      FrontWord(s, p, args[0], rest, Words(s, q), args[1..], FileList(rs));
      assert args == [args[0]] + args[1..];
    } else {
      ItemsRedir(s, p, q, args, rs);
      hide Items, Increasing;
      WordsStep(s, p);
      WordsStep(s, Next(s, p));
      var rest := ItemsWords(s, Next(s, Next(s, p)), q, args, rs[1..]);
      ws := [rs[0].file] + rest;
      FileFront(rs);
      FrontWord(s, p, rs[0].file, rest, Words(s, q), FileList(rs[1..]), args);
    }
  }

  lemma {:induction false} FileFront(rs: seq<Redirection>)
    requires rs != []
    ensures FileList(rs) == [rs[0].file] + FileList(rs[1..])
  {
  }

  /** A word in front of others stands before all of them. */
  lemma {:induction false} FrontWord(s: Line, p: nat, x: Span, ws: seq<Span>, rest: seq<Span>, a: seq<Span>,
      b: seq<Span>)
    requires p <= |s| && Words(s, p) == [x] + (ws + rest) && multiset(ws) == multiset(a) + multiset(b) && Increasing(a)
    ensures Words(s, p) == [x] + ws + rest && Increasing([x] + a)
    ensures multiset([x] + ws) == multiset([x] + a) + multiset(b)
  {
    hide Words;
    assert [x] + (ws + rest) == [x] + ws + rest;
    EarlierBefore(s, p, [x], ws, rest);
    forall y | y in a ensures Before(x, y) {
      assert y in multiset(ws);
    }
    var z := [x] + a;
    assert forall j :: 0 < j < |z| ==> z[j] == a[j - 1];
  }

  lemma {:induction false} WrapOrder(c: Cmd, rs: seq<Redirection>)
    requires InOrder(c) && Increasing(FileList(rs))
    requires c.Exec? || AllBefore(Spans(c), multiset(FileList(rs)))
    ensures InOrder(Wrap(c, rs))
    decreases |rs|
  {
    if rs != [] {
      var k := |rs| - 1;
      var init, fs := rs[..k], FileList(rs);
      assert FileList(init) == fs[..k];
      WrapOrder(c, init);
      if k > 0 {
        assert Wrap(c, init).Redir? && Wrap(c, init).file == fs[k - 1];
      } else if !c.Exec? {
        assert fs[k] in multiset(fs);
        if c.Redir? { assert c.file in Spans(c); }
      }
    }
  }

  lemma {:induction false} RefersTwo(s: Line, p: nat, m: nat, n: nat, q: nat, l: Cmd, r: Cmd, a: seq<Span>,
      b: seq<Span>)
    requires p <= |s| && m <= |s| && n <= |s| && q <= |s| && Words(s, n) == Words(s, m)
    requires Refers(s, p, m, l, a) && Refers(s, n, q, r, b)
    ensures Refers(s, p, q, Pipe(l, r), a + b) && Refers(s, p, q, List(l, r), a + b)
  {
    hide Words;
    assert a + (b + Words(s, q)) == a + b + Words(s, q);
    EarlierBefore(s, p, a, b, Words(s, q));
  }

  lemma {:induction false} SimpleWords(s: Line, p: nat, q: nat, args: seq<Span>, rs: seq<Redirection>)
      returns (ws: seq<Span>)
    requires AtToken(s, p) && AtToken(s, q) && Items(s, p, q, args, rs)
    ensures Refers(s, p, q, Wrap(Exec(args), rs), ws)
  {
    hide Words, Items;
    ws := ItemsWords(s, p, q, args, rs);
    FilesAre(rs);
    WrapSpans(Exec(args), rs);
    WrapOrder(Exec(args), rs);
  }

  lemma {:induction false} BlockWords(s: Line, p: nat, m: nat, q: nat, c0: Cmd, rs: seq<Redirection>, a: seq<Span>)
    returns (ws: seq<Span>)
    requires AtToken(s, p) && AtToken(s, m) && AtToken(s, q) && Sees(s, p, '(') && Sees(s, m, ')')
    requires Refers(s, Next(s, p), m, c0, a) && Items(s, Next(s, m), q, [], rs)
    ensures Refers(s, p, q, Wrap(c0, rs), ws)
  {
    WordsStep(s, p);
    WordsStep(s, m);
    hide Words, Items;
    var b := ItemsWords(s, Next(s, m), q, [], rs);
    ws := a + b;
    BlockJoined(s, p, q, c0, rs, a, b);
  }

  lemma {:induction false} BlockJoined(s: Line, p: nat, q: nat, c0: Cmd, rs: seq<Redirection>, a: seq<Span>,
      b: seq<Span>)
    requires p <= |s| && q <= |s| && Words(s, p) == a + (b + Words(s, q))
    requires multiset(a) == Spans(c0) && InOrder(c0)
    requires multiset(b) == multiset(FileList(rs)) && Increasing(FileList(rs))
    ensures Refers(s, p, q, Wrap(c0, rs), a + b)
  {
    hide Words, Wrap, InOrder, Spans, Files, FileList, Increasing;
    assert a + (b + Words(s, q)) == a + b + Words(s, q);
    EarlierBefore(s, p, a, b, Words(s, q));
    FilesAre(rs);
    WrapSpans(c0, rs);
    WrapOrder(c0, rs);
  }

  /** What the grammar derives refers to exactly the words of its range, each once, in order. */
  lemma {:induction false} DerivesWords(k: Kind, s: Line, p: nat, q: nat, c: Cmd) returns (ws: seq<Span>)
    requires Derives(k, s, p, q, c)
    ensures p <= |s| && q <= |s| && Refers(s, p, q, c, ws)
    decreases q - p, Rank(k)
  {
    hide Words, Refers, Items;
    match k
    case ExecKind =>
      if IsSimple(s, p, q, c) {
        var args, rs :| c == Wrap(Exec(args), rs) && Items(s, p, q, args, rs);
        ws := SimpleWords(s, p, q, args, rs);
      } else {
        var m: nat, c0, rs :| Next(s, p) <= m < q && Sees(s, m, ')') && Next(s, m) <= q
          && Derives(LineKind, s, Next(s, p), m, c0) && c == Wrap(c0, rs) && Items(s, Next(s, m), q, [], rs);
        ws := DerivesWords(LineKind, s, Next(s, p), m, c0);
        ws := BlockWords(s, p, m, q, c0, rs, ws);
      }
    case PipeKind =>
      if Derives(ExecKind, s, p, q, c) {
        ws := DerivesWords(ExecKind, s, p, q, c);
      } else {
        var m: nat :| p <= m < q && Sees(s, m, '|') && Next(s, m) <= q
          && Derives(ExecKind, s, p, m, c.left) && Derives(PipeKind, s, Next(s, m), q, c.right);
        var a := DerivesWords(ExecKind, s, p, m, c.left);
        var b := DerivesWords(PipeKind, s, Next(s, m), q, c.right);
        WordsStep(s, m);
        RefersTwo(s, p, m, Next(s, m), q, c.left, c.right, a, b);
        ws := a + b;
      }
    case BackKind =>
      if Derives(PipeKind, s, p, q, c) {
        ws := DerivesWords(PipeKind, s, p, q, c);
      } else {
        var m: nat :| p <= m < q && Sees(s, m, '&') && Next(s, m) == q && Derives(BackKind, s, p, m, c.cmd);
        ws := DerivesWords(BackKind, s, p, m, c.cmd);
        WordsStep(s, m);
        RefersBack(s, p, m, q, c, ws);
      }
    case LineKind =>
      if Derives(BackKind, s, p, q, c) {
        ws := DerivesWords(BackKind, s, p, q, c);
      } else {
        var m: nat :| p <= m < q && Sees(s, m, ';') && Next(s, m) <= q
          && Derives(BackKind, s, p, m, c.left) && Derives(LineKind, s, Next(s, m), q, c.right);
        var a := DerivesWords(BackKind, s, p, m, c.left);
        var b := DerivesWords(LineKind, s, Next(s, m), q, c.right);
        WordsStep(s, m);
        RefersTwo(s, p, m, Next(s, m), q, c.left, c.right, a, b);
        ws := a + b;
      }
  }

  lemma {:induction false} RefersBack(s: Line, p: nat, m: nat, q: nat, c: Cmd, ws: seq<Span>)
    requires p <= |s| && m <= |s| && q <= |s| && c.Back? && Refers(s, p, m, c.cmd, ws) && Words(s, q) == Words(s, m)
    ensures Refers(s, p, q, c, ws)
  {
  }

  // ---------- which way redirections go ----------

  /** The last character before `q` that is not white space, NUL at the beginning. */
  function LastBefore(s: Line, q: nat): (c: char)
    requires q <= |s|
  {
    if q == 0 then NUL else if !IsSpace(s[q - 1]) then s[q - 1] else LastBefore(s, q - 1)
  }

  predicate Redirected(s: Line, x: Span) {
    x.q <= |s| && (LastBefore(s, x.q) == '<' || LastBefore(s, x.q) == '>')
  }

  /** Files of redirections stand behind < or >, are written exactly if it is >, and read
      exactly if it is <; arguments stand behind neither. */
  ghost predicate Directed(s: Line, c: Cmd) {
    match c
    case Exec(args) => forall x :: x in args ==> x.q <= |s| && !Redirected(s, x)
    case Redir(c1, file, out) =>
      && file.q <= |s| && Directed(s, c1)
      && (out <==> LastBefore(s, file.q) == '>') && (!out <==> LastBefore(s, file.q) == '<')
    case Pipe(l, r) => Directed(s, l) && Directed(s, r)
    case List(l, r) => Directed(s, l) && Directed(s, r)
    case Back(c1) => Directed(s, c1)
  }

  lemma {:induction false} SkipsSpace(s: Line, e: nat)
    requires e <= |s|
    ensures LastBefore(s, Skip(s, e)) == LastBefore(s, e)
    decreases |s| - e
  {
    if e < |s| && IsSpace(s[e]) { SkipsSpace(s, e + 1); }
  }

  /** What stands before the next token is the end of this one. */
  lemma {:induction false} NextLast(s: Line, p: nat)
    requires AtToken(s, p) && p < |s|
    ensures TokenAt(s, p).0.Symbol? ==> LastBefore(s, Next(s, p)) == s[p]
    ensures TokenAt(s, p).0 == Append ==> LastBefore(s, Next(s, p)) == '>'
    ensures TokenAt(s, p).0 == Word ==> !IsSymbol(LastBefore(s, Next(s, p)))
  {
    var (t, e) := TokenAt(s, p);
    SkipsSpace(s, e);
    assert !IsSpace(s[e - 1]);
  }

  predicate Straight(s: Line, r: Redirection) {
    && r.file.q <= |s|
    && (r.out <==> LastBefore(s, r.file.q) == '>') && (!r.out <==> LastBefore(s, r.file.q) == '<')
  }

  lemma {:induction false} ItemsDirected(s: Line, p: nat, q: nat, args: seq<Span>, rs: seq<Redirection>)
    requires AtToken(s, p) && Items(s, p, q, args, rs) && !Redirected(s, Span(p, p))
    ensures forall x :: x in args ==> x.q <= |s| && !Redirected(s, x)
    ensures forall r :: r in rs ==> Straight(s, r)
    ensures q <= |s|
    decreases |s| - p
  {
    if p != q {
      NextLast(s, p);
      if TokenAt(s, p).0 == Word {
        ItemsDirected(s, Next(s, p), q, args[1..], rs);
        assert args == [args[0]] + args[1..];
      } else {
        NextLast(s, Next(s, p));
        ItemsDirected(s, Next(s, Next(s, p)), q, args, rs[1..]);
        assert rs == [rs[0]] + rs[1..];
      }
    }
  }

  lemma {:induction false} WrapDirected(s: Line, c: Cmd, rs: seq<Redirection>)
    requires Directed(s, c) && forall r :: r in rs ==> Straight(s, r)
    ensures Directed(s, Wrap(c, rs))
  {
    if rs != [] {
      assert rs[|rs| - 1] in rs;
      WrapDirected(s, c, rs[..|rs| - 1]);
    }
  }

  /** In what the grammar derives every redirection goes the way its symbol says. */
  lemma {:induction false} DerivesDirected(k: Kind, s: Line, p: nat, q: nat, c: Cmd)
    requires Derives(k, s, p, q, c) && !Redirected(s, Span(p, p))
    ensures Directed(s, c)
    decreases q - p, Rank(k)
  {
    hide Items, Directed;
    match k
    case ExecKind =>
      if IsSimple(s, p, q, c) {
        var args, rs :| c == Wrap(Exec(args), rs) && Items(s, p, q, args, rs);
        SimpleDirected(s, p, q, args, rs);
      } else {
        var m: nat, c0, rs :| Next(s, p) <= m < q && Sees(s, m, ')') && Next(s, m) <= q
          && Derives(LineKind, s, Next(s, p), m, c0) && c == Wrap(c0, rs) && Items(s, Next(s, m), q, [], rs);
        NextLast(s, p);
        DerivesDirected(LineKind, s, Next(s, p), m, c0);
        NextLast(s, m);
        ItemsDirected(s, Next(s, m), q, [], rs);
        WrapDirected(s, c0, rs);
      }
    case PipeKind =>
      if Derives(ExecKind, s, p, q, c) {
        DerivesDirected(ExecKind, s, p, q, c);
      } else {
        var m: nat :| p <= m < q && Sees(s, m, '|') && Next(s, m) <= q
          && Derives(ExecKind, s, p, m, c.left) && Derives(PipeKind, s, Next(s, m), q, c.right);
        DerivesDirected(ExecKind, s, p, m, c.left);
        NextLast(s, m);
        DerivesDirected(PipeKind, s, Next(s, m), q, c.right);
        BothDirected(s, c);
      }
    case BackKind =>
      if Derives(PipeKind, s, p, q, c) {
        DerivesDirected(PipeKind, s, p, q, c);
      } else {
        var m: nat :| p <= m < q && Sees(s, m, '&') && Next(s, m) == q && Derives(BackKind, s, p, m, c.cmd);
        DerivesDirected(BackKind, s, p, m, c.cmd);
        BothDirected(s, c);
      }
    case LineKind =>
      if Derives(BackKind, s, p, q, c) {
        DerivesDirected(BackKind, s, p, q, c);
      } else {
        var m: nat :| p <= m < q && Sees(s, m, ';') && Next(s, m) <= q
          && Derives(BackKind, s, p, m, c.left) && Derives(LineKind, s, Next(s, m), q, c.right);
        DerivesDirected(BackKind, s, p, m, c.left);
        NextLast(s, m);
        DerivesDirected(LineKind, s, Next(s, m), q, c.right);
        BothDirected(s, c);
      }
  }

  lemma {:induction false} SimpleDirected(s: Line, p: nat, q: nat, args: seq<Span>, rs: seq<Redirection>)
    requires AtToken(s, p) && Items(s, p, q, args, rs) && !Redirected(s, Span(p, p))
    ensures Directed(s, Wrap(Exec(args), rs))
  {
    ItemsDirected(s, p, q, args, rs);
    WrapDirected(s, Exec(args), rs);
  }

  lemma {:induction false} BothDirected(s: Line, c: Cmd)
    requires c.Pipe? || c.List? ==> Directed(s, c.left) && Directed(s, c.right)
    requires c.Back? ==> Directed(s, c.cmd)
    ensures c.Pipe? || c.List? || c.Back? ==> Directed(s, c)
  {
  }

  /** What a word is, character by character: it is not empty, has no white space and none of
      the parser's symbols in it, and is as long as can be. */
  lemma {:induction false} WordsAreMaximal(s: Line, i: nat)
    requires i < |Words(s, 0)|
    ensures var x := Words(s, 0)[i];
      && x.q < x.eq <= |s|
      && (forall j :: x.q <= j < x.eq ==> s[j] !in " \t\r\n\U{000B}<|>&;()")
      && (x.q == 0 || s[x.q - 1] in " \t\r\n\U{000B}<|>&;()")
      && (x.eq == |s| || s[x.eq] in " \t\r\n\U{000B}<|>&;()")
  {
    WordBegins(s, 0, i);
  }

  lemma {:induction false} WordBegins(s: Line, p: nat, i: nat)
    requires p <= |s| && i < |Words(s, p)| && (p == 0 || p == |s| || Breaks(s[p - 1]) || Breaks(s[p]))
    ensures var x := Words(s, p)[i];
      && p <= x.q < x.eq <= |s| && (x.q == 0 || Breaks(s[x.q - 1])) && (forall j :: x.q <= j < x.eq ==> !Breaks(s[j]))
      && (x.eq == |s| || Breaks(s[x.eq]))
    decreases |s| - p
  {
    var q := Skip(s, p);
    var (t, e) := TokenAt(s, q);
    SkipBreaks(s, p);
    if t == Word {
      if i > 0 {
        assert Words(s, p)[i] == Words(s, e)[i - 1];
        WordBegins(s, e, i - 1);
      }
    } else {
      WordBegins(s, e, i);
    }
  }

  /** Ends a word. */
  predicate Breaks(c: char) { IsSpace(c) || IsSymbol(c) }

  lemma {:induction false} SkipBreaks(s: Line, p: nat)
    requires p <= |s|
    ensures Skip(s, p) > p ==> Breaks(s[Skip(s, p) - 1])
    decreases |s| - p
  {
    if p < |s| && IsSpace(s[p]) { SkipBreaks(s, p + 1); }
  }

  // ---------- lines without symbols ----------

  /** A line without symbols. */
  ghost predicate Plain(s: Line) {
    forall i :: 0 <= i < |s| ==> !IsSymbol(s[i])
  }

  lemma {:induction false} PlainItems(s: Line, p: nat)
    requires Plain(s) && AtToken(s, p)
    ensures Items(s, p, |s|, Words(s, p), [])
    decreases |s| - p
  {
    if p < |s| {
      WordsStep(s, p);
      PlainItems(s, Next(s, p));
      assert Words(s, p)[1..] == Words(s, Next(s, p));
    }
  }

  lemma {:induction false} ScanPlain(s: Line, p: nat, args: seq<Span>)
    requires Plain(s) && AtToken(s, p) && |args| < MAXARGS && |args| + |Words(s, p)| >= MAXARGS
    ensures ScanItems(s, p, args, []).Stop?
    decreases |s| - p
  {
    if p < |s| {
      WordsStep(s, p);
      assert TokenAt(s, p).0 == Word;
      if |args| + 1 < MAXARGS { ScanPlain(s, Next(s, p), args + [Span(p, TokenAt(s, p).1)]); }
    }
  }

  /** A line without symbols is a simple command of all its words, if they are few enough. */
  lemma {:induction false} PlainParse(s: Line)
    requires Plain(s)
    ensures Parse(s) == if |Words(s, 0)| < MAXARGS then Done(Exec(Words(s, 0)), |s|) else Fail
  {
    var p := Skip(s, 0);
    SkipTwice(s, 0);
    if |Words(s, 0)| < MAXARGS {
      PlainItems(s, p);
      var c := Exec(Words(s, 0));
      assert Wrap(c, []) == c;
      assert IsSimple(s, p, |s|, c);
      assert Derives(PipeKind, s, p, |s|, c) && Derives(BackKind, s, p, |s|, c);
      ParseIffDerives(s, c);
    } else {
      ScanPlain(s, p, []);
      assert ExecTree(s, p).Fail?;
      assert PipeTree(s, p).Fail?;
      assert LineTree(s, p).Fail?;
    }
  }
}
