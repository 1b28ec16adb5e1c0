/** The shell's parser, and the NULs it writes into its line (src/user/sh/main.c). */
module Shell {
  import opened ShellGrammar

  // ---------- tokens ----------

  /** gettoken: the token after white space, its place, and the cursor behind it and behind
      further white space. */
  method GetToken(s: Line, p: nat) returns (t: Token, q: nat, eq: nat, p': nat)
    requires p <= |s|
    ensures q == Skip(s, p) && (t, eq) == TokenAt(s, q) && p' == Skip(s, eq)
    ensures p' <= |s| && (t != End ==> p' > p)
    ensures Words(s, p) == (if t == Word then [Span(q, eq)] else []) + Words(s, p')
    ensures t == Word ==> q < eq && eq == WordEnd(s, q) && !IsSpace(s[q]) && !IsSymbol(s[q])
  {
    q := SkipSpace(s, p);
    eq := q;
    if q == |s| {
      t := End;
    } else if s[q] == '>' {
      eq := q + 1;
      t := Symbol('>');
      if At(s, eq) == '>' { t, eq := Append, eq + 1; }
    } else if IsSymbol(s[q]) {
      eq := q + 1;
      t := Symbol(s[q]);
    } else {
      t := Word;
      while eq < |s| && !IsSpace(s[eq]) && !IsSymbol(s[eq])
        invariant q <= eq <= |s| && WordEnd(s, q) == WordEnd(s, eq)
      {
        eq := eq + 1;
      }
    }
    p' := SkipSpace(s, eq);
    SkipTwice(s, eq);
  }

  method SkipSpace(s: Line, p: nat) returns (q: nat)
    requires p <= |s|
    ensures q == Skip(s, p)
  {
    q := p;
    while q < |s| && IsSpace(s[q])
      invariant p <= q <= |s| && Skip(s, q) == Skip(s, p)
    {
      q := q + 1;
    }
  }

  /** peek: is the next character one of `toks`? */
  method Peek(s: Line, p: nat, toks: seq<char>) returns (found: bool, p': nat)
    requires p <= |s|
    ensures p' == Skip(s, p) && p <= p' <= |s| && Words(s, p') == Words(s, p)
    ensures found <==> p' < |s| && s[p'] in toks
  {
    p' := SkipSpace(s, p);
    SkipTwice(s, p);
    found := p' < |s| && s[p'] in toks;
  }

  // ---------- redirections ----------

  /** parseredirs: redirections are collected while there are any. */
  method ParseRedirs(s: Line, p: nat, rs: seq<Redirection>) returns (ok: bool, rs': seq<Redirection>, p': nat)
    requires p <= |s|
    ensures ScanRedirs(s, Skip(s, p), rs) == if ok then Go([], rs', p') else Stop
    ensures ok ==> p <= p' && AtToken(s, p') && !Sees(s, p', '<') && !Sees(s, p', '>')
    ensures forall args :: ScanItems(s, Skip(s, p), args, rs) == if ok then ScanItems(s, p', args, rs') else Stop
  {
    hide Words, WordEnd;
    rs', ok := rs, true;
    var more;
    more, p' := Peek(s, p, ['<', '>']);
    ghost var start := p';
    while more
      invariant p <= p' && AtToken(s, p') && (more <==> Sees(s, p', '<') || Sees(s, p', '>'))
      invariant ScanRedirs(s, start, rs) == ScanRedirs(s, p', rs')
      invariant forall args :: ScanItems(s, start, args, rs) == ScanItems(s, p', args, rs')
      decreases |s| - p'
    {
      var r, p1;
      ok, r, p1 := ParseRedir(s, p', rs');
      if !ok { return; }
      rs' := rs' + [r];
      more, p' := Peek(s, p1, ['<', '>']);
      SkipTwice(s, p1);
    }
  }

  /** One turn of the loop of parseredirs, at < or >. */
  method ParseRedir(s: Line, p: nat, ghost rs: seq<Redirection>) returns (ok: bool, r: Redirection, p': nat)
    requires AtToken(s, p) && (Sees(s, p, '<') || Sees(s, p, '>'))
    ensures ok ==> p < p' && AtToken(s, p') && Skip(s, p') == p'
    ensures ScanRedirs(s, p, rs) == if ok then ScanRedirs(s, p', rs + [r]) else Stop
    ensures forall args :: ScanItems(s, p, args, rs) == if ok then ScanItems(s, p', args, rs + [r]) else Stop
  {
    hide Words, WordEnd;
    var tok, q, eq, p1 := GetToken(s, p);
    SkipTwice(s, eq);
    var t2, q2, eq2, p2 := GetToken(s, p1);
    SkipTwice(s, eq2);
    assert q == p && p1 == Next(s, p) && q2 == p1 && p2 == Next(s, p1);
    ok, r, p' := t2 == Word, To(Span(q2, eq2), tok != Symbol('<')), p2;
  }

  // ---------- the grammar ----------

  datatype ArgResult = Bad | NoMore | More

  /** One argument and the redirections behind it, where no redirection stands. */
  method ParseArg(s: Line, p: nat, args: seq<Span>, rs: seq<Redirection>)
    returns (r: ArgResult, args': seq<Span>, rs': seq<Redirection>, p': nat)
    requires AtToken(s, p) && !Sees(s, p, '<') && !Sees(s, p, '>') && (!Ends(s, p) || p == |s|) && |args| < MAXARGS
    ensures r == NoMore ==> p == |s|
    ensures r == More ==> p < p' && AtToken(s, p') && !Sees(s, p', '<') && !Sees(s, p', '>') && |args'| < MAXARGS
    ensures ScanItems(s, p, args, rs) ==
      match r
      case Bad => Stop
      case NoMore => Go(args, rs, p)
      case More => ScanItems(s, p', args', rs')
  {
    hide Words, WordEnd, ScanRedirs;
    var t, q, eq, p2 := GetToken(s, p);
    assert q == p && p2 == Next(s, p);
    args', rs', p' := args, rs, p;
    if t == End { return NoMore, args', rs', p'; }
    if t != Word { return Bad, args', rs', p'; }
    args' := args + [Span(q, eq)];
    if |args'| >= MAXARGS { return Bad, args', rs', p'; }
    ScanWord(s, p, args, rs);
    SkipTwice(s, eq);
    hide ScanItems;
    var ok;
    ok, rs', p' := ParseRedirs(s, p2, rs);
    r := if ok then More else Bad;
  }

  /** parseexec without parentheses: words and redirections up to | ) & ; or the end. */
  method ParseSimple(s: Line, p: nat) returns (r: Tree)
    requires p <= |s| && !Sees(s, Skip(s, p), '(')
    ensures r == ExecTree(s, Skip(s, p))
  {
    hide Words, WordEnd, ScanRedirs, ScanItems;
    var args: seq<Span> := [];
    var ok, rs, p1 := ParseRedirs(s, p, []);
    if !ok { return Fail; }
    var stop;
    stop, p1 := Peek(s, p1, ['|', ')', '&', ';']);
    while !stop
      invariant AtToken(s, p1) && !Sees(s, p1, '<') && !Sees(s, p1, '>') && |args| < MAXARGS
      invariant ScanItems(s, Skip(s, p), [], []) == ScanItems(s, p1, args, rs)
      invariant stop <==> p1 < |s| && Ends(s, p1)
      decreases |s| - p1
    {
      var a, args1, rs1, p2 := ParseArg(s, p1, args, rs);
      if a == NoMore { break; }
      if a == Bad { return Fail; }
      args, rs := args1, rs1;
      stop, p1 := Peek(s, p2, ['|', ')', '&', ';']);
    }
    ScanEnds(s, p1, args, rs);
    r := Done(Wrap(Exec(args), rs), p1);
  }

  /** parseexec: a block in parentheses, or a simple command. */
  method ParseExec(s: Line, p: nat) returns (r: Tree)
    requires p <= |s|
    ensures r == ExecTree(s, Skip(s, p))
    decreases |s| - p, 1
  {
    var block, p1 := Peek(s, p, ['(']);
    SkipTwice(s, p);
    if block {
      r := ParseBlock(s, p1);
    } else {
      r := ParseSimple(s, p1);
    }
  }

  /** gettoken of a symbol that was seen. */
  method Consume(s: Line, p: nat) returns (p': nat)
    requires AtToken(s, p) && p < |s| && IsSymbol(s[p])
    ensures p < p' && p' == Next(s, p) && Skip(s, p') == p'
  {
    var t, q, eq, p1 := GetToken(s, p);
    SkipTwice(s, eq);
    p' := p1;
  }

  /** parseblock. */
  method ParseBlock(s: Line, p: nat) returns (r: Tree)
    requires AtToken(s, p) && Sees(s, p, '(')
    ensures r == ExecTree(s, p)
    decreases |s| - p, 0
  {
    var p1 := Consume(s, p);
    var l := ParseLine(s, p1);
    if l.Fail? { return Fail; }
    var close, p2 := Peek(s, l.p, [')']);
    if !close { return Fail; }
    var p3 := Consume(s, p2);
    var ok, rs, p4 := ParseRedirs(s, p3, []);
    r := if ok then Done(Wrap(l.c, rs), p4) else Fail;
  }

  /** parsepipe. */
  method ParsePipe(s: Line, p: nat) returns (r: Tree)
    requires p <= |s|
    ensures r == PipeTree(s, Skip(s, p))
    decreases |s| - p, 2
  {
    r := ParseExec(s, p);
    if r.Fail? { return; }
    var bar, p1 := Peek(s, r.p, ['|']);
    if bar {
      var p2 := Consume(s, p1);
      var right := ParsePipe(s, p2);
      r := if right.Fail? then Fail else Done(Pipe(r.c, right.c), right.p);
    }
  }

  /** parseline. */
  method ParseLine(s: Line, p: nat) returns (r: Tree)
    requires p <= |s|
    ensures r == LineTree(s, Skip(s, p))
    decreases |s| - p, 3
  {
    r := ParsePipe(s, p);
    if r.Fail? { return; }
    var cmd, p1 := r.c, r.p;
    var amp, semi;
    amp, p1 := Peek(s, p1, ['&']);
    while amp
      invariant r.p <= p1 && AtToken(s, p1) && (amp <==> Sees(s, p1, '&'))
      invariant BackTree(s, r.p, r.c) == BackTree(s, p1, cmd)
      decreases |s| - p1
    {
      var p2 := Consume(s, p1);
      cmd := Back(cmd);
      amp, p1 := Peek(s, p2, ['&']);
    }
    semi, p1 := Peek(s, p1, [';']);
    if semi {
      var p2 := Consume(s, p1);
      var right := ParseLine(s, p2);
      r := if right.Fail? then Fail else Done(List(cmd, right.c), right.p);
    } else {
      r := Done(cmd, p1);
    }
  }

  // ---------- parsecmd and nulterminate ----------

  /** The places where nulterminate writes. */
  ghost predicate EndsAt(c: Cmd, i: nat) {
    exists x :: x in Spans(c) && x.eq == i
  }

  /** nulterminate: NULs are written at the ends of exactly the words of the command. */
  method NulTerminate(buf: array<char>, c: Cmd)
    requires forall x :: x in Spans(c) ==> x.eq < buf.Length
    modifies buf
    ensures forall i :: 0 <= i < buf.Length ==> buf[i] == if EndsAt(c, i) then NUL else old(buf[i])
    decreases c
  {
    EndsParts(c);
    match c
    case Exec(args) =>
      assert forall k :: 0 <= k < |args| ==> args[k] in Spans(c);
      TerminateArgs(buf, args);
    case Redir(c1, file, _) =>
      assert file in Spans(c);
      hide EndsAt, Spans;
      NulTerminate(buf, c1);
      buf[file.eq] := NUL;
    case Pipe(l, r) =>
      hide EndsAt;
      NulTerminate(buf, l);
      NulTerminate(buf, r);
    case List(l, r) =>
      hide EndsAt;
      NulTerminate(buf, l);
      NulTerminate(buf, r);
    case Back(c1) =>
      hide EndsAt;
      NulTerminate(buf, c1);
  }

  /** The ends of a command are those of its parts. */
  lemma EndsParts(c: Cmd)
    ensures match c
      case Exec(args) => forall i: nat :: EndsAt(c, i) <==> EndsIn(args, i)
      case Redir(c1, file, _) => forall i: nat :: EndsAt(c, i) <==> EndsAt(c1, i) || i == file.eq
      case Pipe(l, r) => forall i: nat :: EndsAt(c, i) <==> EndsAt(l, i) || EndsAt(r, i)
      case List(l, r) => forall i: nat :: EndsAt(c, i) <==> EndsAt(l, i) || EndsAt(r, i)
      case Back(c1) => forall i: nat :: EndsAt(c, i) <==> EndsAt(c1, i)
  {
    match c
    case Exec(args) =>
      forall i: nat ensures EndsAt(c, i) <==> EndsIn(args, i) {
        if EndsAt(c, i) {
          var x :| x in Spans(c) && x.eq == i;
          assert x in args;
        }
        if EndsIn(args, i) {
          var k :| 0 <= k < |args| && args[k].eq == i;
          assert args[k] in Spans(c);
        }
      }
    case Redir(c1, file, _) =>
      forall i: nat ensures EndsAt(c, i) <==> EndsAt(c1, i) || i == file.eq {
        if EndsAt(c1, i) {
          var x :| x in Spans(c1) && x.eq == i;
          assert x in Spans(c);
        }
        if i == file.eq { assert file in Spans(c); }
      }
    case Pipe(l, r) => EndsTwo(c, l, r);
    case List(l, r) => EndsTwo(c, l, r);
    case Back(c1) =>
  }

  lemma {:induction false} EndsTwo(c: Cmd, l: Cmd, r: Cmd)
    requires Spans(c) == Spans(l) + Spans(r)
    ensures forall i: nat :: EndsAt(c, i) <==> EndsAt(l, i) || EndsAt(r, i)
  {
    hide Spans;
    var m, a, b := Spans(c), Spans(l), Spans(r);
    assert forall x :: x in m <==> x in a || x in b;
    forall i: nat ensures EndsAt(c, i) <==> EndsAt(l, i) || EndsAt(r, i) {
      assert (exists x :: x in m && x.eq == i)
        <==> (exists x :: x in a && x.eq == i) || (exists x :: x in b && x.eq == i);
    }
  }

  method TerminateArgs(buf: array<char>, args: seq<Span>)
    requires forall k :: 0 <= k < |args| ==> args[k].eq < buf.Length
    modifies buf
    ensures forall i :: 0 <= i < buf.Length ==> buf[i] == if EndsIn(args, i) then NUL else old(buf[i])
  {
    var k := 0;
    while k < |args|
      invariant 0 <= k <= |args|
      invariant forall i :: 0 <= i < buf.Length ==> buf[i] == if EndsIn(args[..k], i) then NUL else old(buf[i])
    {
      EndsMore(args, k);
      buf[args[k].eq] := NUL;
      k := k + 1;
    }
    assert args[..k] == args;
  }

  lemma EndsMore(args: seq<Span>, k: nat)
    requires k < |args|
    ensures forall i :: EndsIn(args[..k + 1], i) <==> EndsIn(args[..k], i) || i == args[k].eq
  {
    forall i ensures EndsIn(args[..k + 1], i) <==> EndsIn(args[..k], i) || i == args[k].eq {
      if EndsIn(args[..k], i) {
        var j :| 0 <= j < k && args[..k][j].eq == i;
        assert args[..k + 1][j].eq == i;
      }
      if i == args[k].eq { assert args[..k + 1][k].eq == i; }
      if EndsIn(args[..k + 1], i) {
        var j :| 0 <= j < k + 1 && args[..k + 1][j].eq == i;
        if j < k { assert args[..k][j].eq == i; }
      }
    }
  }

  ghost predicate EndsIn(args: seq<Span>, i: int) {
    exists k :: 0 <= k < |args| && args[k].eq == i
  }

  /** The C string at `q`. */
  function StringAt(b: seq<char>, q: nat): (r: seq<char>)
    decreases |b| - q
  {
    if q >= |b| || b[q] == NUL then [] else [b[q]] + StringAt(b, q + 1)
  }

  lemma {:induction false} StringIs(b: seq<char>, q: nat, eq: nat)
    requires q <= eq < |b| && b[eq] == NUL && forall i :: q <= i < eq ==> b[i] != NUL
    ensures StringAt(b, q) == b[q..eq]
    decreases eq - q
  {
    if q < eq { StringIs(b, q + 1, eq); }
  }

  /** parsecmd on a line in a buffer that ends in NUL. It returns a command if and only if
      the whole line is that command by the grammar and no simple command in it has too many
      arguments; the command then refers to every word of the line exactly once, in order,
      and every word reads back from the buffer as it was. A line without symbols succeeds
      exactly if it has fewer than ten words, which are then the arguments. */
  method ParseCmd(buf: array<char>, n: nat) returns (r: Tree)
    requires n < buf.Length && NUL !in buf[..n] && buf[n] == NUL
    modifies buf
    ensures r == Parse(old(buf[..n])) && (r.Done? ==> r.p == n)
    ensures forall c ::
      r == Done(c, n) <==> Derives(LineKind, old(buf[..n]), Skip(old(buf[..n]), 0), n, c) && FewArgs(c)
    ensures r.Done? ==> Spans(r.c) == multiset(Words(old(buf[..n]), 0)) && InOrder(r.c) && Directed(old(buf[..n]), r.c)
    ensures r.Done? ==> forall x :: x in Spans(r.c) ==>
      x.q < x.eq <= n && StringAt(buf[..], x.q) == old(buf[..n])[x.q..x.eq]
    ensures Plain(old(buf[..n])) ==> (r.Done? <==> |Words(old(buf[..n]), 0)| < 10)
    ensures Plain(old(buf[..n])) && r.Done? ==> r.c == Exec(Words(old(buf[..n]), 0))
  {
    hide Words, Derives, Spans, InOrder, Directed, Plain, EndsAt, StringAt, Parse, FewArgs;
    var s: Line := buf[..n];
    r := ParseWhole(s);
    if Plain(s) { PlainParse(s); }
    forall c ensures r == Done(c, n) <==> Derives(LineKind, s, Skip(s, 0), n, c) && FewArgs(c) {
      ParseIffDerives(s, c);
    }
    if r.Fail? { return; }
    ghost var ws := WholeWords(s, r.c);
    WholeDirected(s, r.c);
    EndsInside(s, r.c, ws);
    NulTerminate(buf, r.c);
    forall x | x in Spans(r.c) ensures x.q < x.eq <= n && StringAt(buf[..], x.q) == s[x.q..x.eq] {
      ReadsBack(s, r.c, ws, buf[..], x);
    }
  }

  /** parseline, and nothing may be left over. */
  method ParseWhole(s: Line) returns (r: Tree)
    ensures r == Parse(s) && (r.Done? ==> r.p == |s|)
  {
    r := ParseLine(s, 0);
    if r.Fail? { return; }
    var more, p := Peek(s, r.p, []);
    if p != |s| { return Fail; }
  }

  lemma {:induction false} WholeWords(s: Line, c: Cmd) returns (ws: seq<Span>)
    requires Derives(LineKind, s, Skip(s, 0), |s|, c)
    ensures ws == Words(s, 0) && multiset(ws) == Spans(c) && InOrder(c)
  {
    hide Derives, InOrder, Spans;
    ws := DerivesWords(LineKind, s, Skip(s, 0), |s|, c);
    SkipTwice(s, 0);
    assert Words(s, |s|) == [];
    assert ws + [] == ws;
  }

  lemma {:induction false} WholeDirected(s: Line, c: Cmd)
    requires Derives(LineKind, s, Skip(s, 0), |s|, c)
    ensures Directed(s, c)
  {
    hide Derives, Directed;
    SkipsSpace(s, 0);
    DerivesDirected(LineKind, s, Skip(s, 0), |s|, c);
  }

  lemma {:induction false} EndsInside(s: Line, c: Cmd, ws: seq<Span>)
    requires ws == Words(s, 0) && multiset(ws) == Spans(c)
    ensures forall x :: x in Spans(c) ==> x.eq <= |s|
  {
    WordsInOrder(s, 0);
    forall x | x in Spans(c) ensures x.eq <= |s| {
      assert x in multiset(ws);
      assert x in ws;
    }
  }

  lemma {:induction false} ReadsBack(s: Line, c: Cmd, ws: seq<Span>, b: seq<char>, x: Span)
    requires Words(s, 0) == ws && multiset(ws) == Spans(c) && x in Spans(c) && |b| > |s|
    requires forall i :: 0 <= i < |s| ==> b[i] == if EndsAt(c, i) then NUL else s[i]
    requires b[|s|] == NUL
    ensures x.q < x.eq <= |s| && StringAt(b, x.q) == s[x.q..x.eq]
  {
    hide Words, Spans;
    InTheLine(s, ws, x) by { assert x in multiset(ws); }
    assert EndsAt(c, x.eq);
    forall i | x.q <= i < x.eq ensures b[i] == s[i] != NUL {
      NoEndInside(s, c, ws, x, i);
      assert s[i] in s;
    }
    StringIs(b, x.q, x.eq);
    assert b[x.q..x.eq] == s[x.q..x.eq];
  }

  lemma {:induction false} InTheLine(s: Line, ws: seq<Span>, x: Span)
    requires Words(s, 0) == ws && x in ws
    ensures x.q < x.eq <= |s|
  {
    WordsInOrder(s, 0);
  }

  /** No word ends inside another one. */
  lemma {:induction false} NoEndInside(s: Line, c: Cmd, ws: seq<Span>, x: Span, i: nat)
    requires Words(s, 0) == ws && multiset(ws) == Spans(c) && x in ws && x.q <= i < x.eq
    ensures !EndsAt(c, i)
  {
    WordsInOrder(s, 0);
    hide Words, Spans;
    var j :| 0 <= j < |ws| && ws[j] == x;
    forall y | y in Spans(c) ensures y.eq != i {
      assert y in multiset(ws);
      var k :| 0 <= k < |ws| && ws[k] == y;
      assert j < k ==> Before(x, y);
      assert k < j ==> Before(y, x);
    }
  }
}
