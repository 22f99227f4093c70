/** file.c of libuci: taking a line apart in place, fetching more lines as needed. */
module UciParse {
  import opened UciText

  /** The part of a line that is not read yet. `more` says whether the file goes on. */
  predicate LineTail(s: Text, more: bool) {
    && NulFree(s) && (forall i :: 0 <= i < |s| - 1 ==> s[i] != '\n')
    && (more && s != [] ==> s[|s| - 1] == '\n')
  }

  /** The rest of a file whose last line has a newline, before its end was seen. */
  predicate GoodFile(s: Text, eof: bool) {
    NulFree(s) && !eof && (s != [] ==> s[|s| - 1] == '\n')
  }

  /** The length of the first line, with its newline. */
  function LineLen(s: Text): (n: nat)
    ensures n <= |s| && (s != [] ==> n > 0) && (n < |s| ==> s[n - 1] == '\n')
    ensures forall i :: 0 <= i < n - 1 ==> s[i] != '\n'
  {
    if s == [] then 0 else if s[0] == '\n' then 1 else 1 + LineLen(s[1..])
  }

  /** Nothing but a line end is at `i`. */
  predicate LineEnds(b: Text, i: nat) {
    i >= |b| || b[i] == NUL || b[i] == '\n' ||
    (b[i] == '\r' && i + 1 < |b| && b[i + 1] == '\n' && (i + 2 >= |b| || b[i + 2] == NUL))
  }

  /** The first line of a file, and the rest. */
  lemma FirstLine(s: Text, eof: bool)
    requires s != [] && GoodFile(s, eof)
    ensures var n := LineLen(s);
            && !eof && LineTail(s[..n], s[n..] != []) && GoodFile(s[n..], false) && s[n - 1] == '\n'
               && s[0] != NUL && s[..n][0] == s[0]
  {
  }

  /** The C string at an offset. */
  function StrEnd(b: Text, i: nat): (e: nat)
    ensures i <= e && (e < |b| ==> b[e] == NUL) && (i <= |b| ==> e <= |b|)
    ensures forall k :: i <= k < e ==> k < |b| && b[k] != NUL
    decreases |b| - i
  {
    if i < |b| && b[i] != NUL then StrEnd(b, i + 1) else i
  }

  function CStr(b: Text, i: nat): Text { if i <= |b| then b[i..StrEnd(b, i)] else [] }

  /** The buffer up to an offset, with NULs where it is shorter. */
  function Upto(b: Text, i: nat): (r: Text)
    ensures |r| == i
  {
    if i <= |b| then b[..i] else b + seq(i - |b|, _ => NUL)
  }

  // ----- double quotes

  /** What a double-quoted string says, and what is behind its closing quote. */
  datatype Unwrapped = Closed(text: Text, rest: Text) | Unterminated

  /** A backslash and a line end. */
  predicate Continues(s: Text) {
    |s| == 1 || (|s| > 1 && (s[1] == '\n' || (s[1] == '\r' && |s| > 2 && s[2] == '\n')))
  }

  function NextLine(s: Text): (r: Text)
    requires s != []
    ensures |r| < |s|
  {
    if |s| == 1 then [] else if s[1] == '\n' then s[2..] else if |s| > 2 then s[3..] else []
  }

  /** A backslash joins two lines, or stands for nothing in front of another character. */
  function Unwrap(s: Text): Unwrapped
    decreases |s|
  {
    if s == [] then Unterminated
    else if s[0] == '"' then Closed([], s[1..])
    else if s[0] != '\\' then Behind([s[0]], Unwrap(s[1..]))
    else if Continues(s) then Unwrap(NextLine(s))
    else Behind([s[1]], Unwrap(s[2..]))
  }

  function Behind(v: Text, u: Unwrapped): Unwrapped {
    if u.Closed? then Closed(v + u.text, u.rest) else u
  }

  lemma NothingYet(v: Text, s: Text)
    requires v == []
    ensures Behind(v, Unwrap(s)) == Unwrap(s)
  {
  }

  /** What the next character does to a string that `v` was taken from. */
  lemma UnwrapStep(v: Text, s: Text)
    ensures s == [] ==> Behind(v, Unwrap(s)) == Unterminated
    ensures s != [] && s[0] == '"' ==> Behind(v, Unwrap(s)) == Closed(v, s[1..])
    ensures s != [] && s[0] == '\\' ==>
            if Continues(s) then Unwrap(s) == Unwrap(NextLine(s))
            else |s| > 1 && Behind(v, Unwrap(s)) == Behind(v + [s[1]], Unwrap(s[1..][1..]))
    ensures s != [] && s[0] != '"' && s[0] != '\\' ==> Behind(v, Unwrap(s)) == Behind(v + [s[0]], Unwrap(s[1..]))
  {
    hide Unwrap;
    UnwrapIs(s);
    if s != [] {
      BehindBoth(v, s[0], Unwrap(s[1..]));
      if |s| > 1 {
        BehindBoth(v, s[1], Unwrap(s[2..]));
        assert s[1..][1..] == s[2..];
      }
    }
  }

  lemma UnwrapIs(s: Text)
    ensures s == [] ==> Unwrap(s) == Unterminated
    ensures s != [] && s[0] == '"' ==> Unwrap(s) == Closed([], s[1..])
    ensures s != [] && s[0] == '\\' ==>
            if Continues(s) then Unwrap(s) == Unwrap(NextLine(s))
            else |s| > 1 && Unwrap(s) == Behind([s[1]], Unwrap(s[2..]))
    ensures s != [] && s[0] != '"' && s[0] != '\\' ==> Unwrap(s) == Behind([s[0]], Unwrap(s[1..]))
  {
  }

  lemma BehindBoth(v: Text, c: char, u: Unwrapped)
    ensures Behind(v, Behind([c], u)) == Behind(v + [c], u)
  {
    if u.Closed? { assert v + ([c] + u.text) == v + [c] + u.text; }
  }

  /** A backslash at the end of a line joins the line with the next one, and in front of
      another character it is dropped. */
  lemma {:induction false} UnwrapJoins(a: Text, b: Text)
    requires '"' !in a && '\\' !in a
    ensures Unwrap(a + b) == Behind(a, Unwrap(b))
    ensures Unwrap(a + ("\\\n" + b)) == Unwrap(a + b) && Unwrap(a + ("\\\r\n" + b)) == Unwrap(a + b)
    ensures forall c :: c != '\n' && c != '\r' ==> Unwrap(a + (['\\', c] + b)) == Behind(a + [c], Unwrap(b))
    decreases |a|
  {
    hide Unwrap;
    Prefixed(a, b);
    var x, y := "\\\n" + b, "\\\r\n" + b;
    Prefixed(a, x);
    Prefixed(a, y);
    UnwrapIs(x);
    UnwrapIs(y);
    assert x[2..] == b && y[3..] == b;
    forall c | c != '\n' && c != '\r'
      ensures Unwrap(a + (['\\', c] + b)) == Behind(a + [c], Unwrap(b))
    {
      var z := ['\\', c] + b;
      Prefixed(a, z);
      UnwrapIs(z);
      assert z[2..] == b;
      BehindBoth(a, c, Unwrap(b));
    }
  }

  lemma {:induction false} Prefixed(a: Text, b: Text)
    requires '"' !in a && '\\' !in a
    ensures Unwrap(a + b) == Behind(a, Unwrap(b))
    decreases |a|
  {
    hide Unwrap;
    if a == [] {
      assert a + b == b;
      NothingYet([], b);
    } else {
      UnwrapIs(a + b);
      assert (a + b)[1..] == a[1..] + b;
      Prefixed(a[1..], b);
      BehindFirst(a, Unwrap(b));
    }
  }

  lemma BehindFirst(a: Text, u: Unwrapped)
    requires a != []
    ensures Behind([a[0]], Behind(a[1..], u)) == Behind(a, u)
  {
    assert [a[0]] + a[1..] == a;
    if u.Closed? { assert [a[0]] + (a[1..] + u.text) == a + u.text; }
  }

  /** A text in double quotes, with backslashes in front of what has a meaning there. */
  function Wrap(v: Text): Text {
    if v == [] then "\"" else (if v[0] == '"' || v[0] == '\\' then ['\\', v[0]] else [v[0]]) + Wrap(v[1..])
  }

  lemma {:induction false} WrapBack(v: Text, rest: Text)
    ensures Unwrap(Wrap(v) + rest) == Closed(v, rest)
    decreases |v|
  {
    hide Unwrap;
    var s := Wrap(v) + rest;
    UnwrapIs(s);
    if v == [] {
      assert s[1..] == rest;
    } else {
      var w := Wrap(v[1..]) + rest;
      WrapBack(v[1..], rest);
      assert [v[0]] + v[1..] == v;
      if v[0] == '"' || v[0] == '\\' {
        assert s == ['\\', v[0]] + w;
        assert s[2..] == w;
      } else {
        assert s == [v[0]] + w;
        assert s[1..] == w;
      }
    }
  }

  // ----- what an argument looks like

  /** What comes next: a quoted part, an escaped quote, bare characters to the end or up
      to a quoted part at `k`, or nothing. */
  datatype Mode = Quote | Slash | Bare | Joined(k: nat) | Done

  datatype Turn = Go | Stop | Semicolon | Fail

  predicate Fits(v: Text, j: nat, m: Mode) {
    && j <= |v|
    && match m
       case Quote => NulFree(v)
       case Slash => NulFree(v) && j < |v| && v[j] == '\''
       case Bare => j < |v| && Plain(v)
       case Joined(k) => j < k <= |v| && Plain(v[..k]) && NulFree(v)
       case Done => j == |v|
  }

  ghost function Pending(v: Text, j: nat, m: Mode): Text
    requires Fits(v, j, m)
  {
    match m
    case Quote => Quoted(v[j..])
    case Slash => "\\'" + Quoted(v[j + 1..])
    case Bare => v[j..]
    case Joined(k) => v[j..k] + Quoted(v[k..])
    case Done => []
  }

  predicate Blank(s: Text) { forall i :: 0 <= i < |s| ==> s[i] == ' ' || s[i] == '\t' }

  predicate Spaced(tail: Text) { tail != [] && IsSpace(tail[0]) }

  /** The string up to the next quote, and what follows it in the file. */
  ghost function Segment(v: Text, j: nat): Text
    requires j <= |v|
  {
    v[j..][..Cut(v[j..])]
  }

  ghost function AfterSegment(v: Text, j: nat, tail: Text): Text
    requires j <= |v|
  {
    var k := j + Cut(v[j..]);
    if k == |v| then tail else "\\'" + Quoted(v[k + 1..]) + tail
  }

  lemma QuotedEnd(u: Text)
    requires Cut(u) == |u|
    ensures Quoted(u) == "'" + u + "'"
  {
    hide Escaped, Cut;
    EscapedAt(u, |u|);
    assert u[..|u|] + [] == u;
  }

  lemma QuotedMore(u: Text)
    requires Cut(u) < |u|
    ensures Quoted(u) == "'" + u[..Cut(u)] + "'" + ("\\'" + Quoted(u[Cut(u) + 1..]))
  {
    hide Escaped, Cut;
    EscapeParts();
    EscapedMore(u);
    Glue("'", "\\'", QUOTE_ESCAPE, u[..Cut(u)], Escaped(u[Cut(u) + 1..]), Escaped(u));
  }

  lemma EscapeParts()
    ensures QUOTE_ESCAPE == "'" + "\\'" + "'"
  {
  }

  lemma EscapedMore(u: Text)
    requires Cut(u) < |u|
    ensures Escaped(u) == u[..Cut(u)] + QUOTE_ESCAPE + Escaped(u[Cut(u) + 1..])
  {
    hide Escaped, Cut;
    EscapedAt(u, Cut(u));
  }

  lemma Glue(q: Text, s: Text, x: Text, a: Text, e: Text, w: Text)
    requires x == q + s + q && w == a + x + e
    ensures q + w + q == q + a + q + (s + (q + e + q))
  {
    assert w == a + q + s + q + e;
    assert q + (a + q + s + q + e) + q == q + a + q + s + q + e + q;
    assert q + a + q + (s + (q + e + q)) == q + a + q + s + q + e + q;
  }

  lemma AheadQuote(v: Text, j: nat, tail: Text)
    requires Fits(v, j, Quote)
    ensures Pending(v, j, Quote) + tail == "'" + Segment(v, j) + "'" + AfterSegment(v, j, tail)
    ensures '\'' !in Segment(v, j) && |Segment(v, j)| <= |v| - j && v[j..j + |Segment(v, j)|] == Segment(v, j)
    ensures j + |Segment(v, j)| < |v| ==> v[j + |Segment(v, j)|] == '\''
  {
    hide Quoted, Cut;
    var u := v[j..];
    if Cut(u) == |u| {
      QuotedEnd(u);
      assert u[..|u|] == u;
    } else {
      QuotedMore(u);
      assert u[Cut(u) + 1..] == v[j + Cut(u) + 1..];
    }
  }

  lemma AheadSlash(v: Text, j: nat, tail: Text)
    requires Fits(v, j, Slash)
    ensures var s := Pending(v, j, Slash) + tail;
            && |s| >= 2 && s[0] == '\\' && s[1] == '\'' && s[1..][0] == '\''
               && s[1..][1..] == Pending(v, j + 1, Quote) + tail
  {
    hide Quoted;
  }

  /** The mode after a bare character. */
  function AfterBare(v: Text, j: nat, m: Mode): Mode {
    match m
    case Joined(k) => if j + 1 < k then m else Quote
    case _ => if j + 1 < |v| then Bare else Done
  }

  lemma AheadBare(v: Text, j: nat, m: Mode, tail: Text)
    requires Fits(v, j, m) && (m.Bare? || m.Joined?)
    ensures var s, m' := Pending(v, j, m) + tail, AfterBare(v, j, m);
            && j < |v| && s != [] && s[0] == v[j] && v[j] != '\n' && Fits(v, j + 1, m')
               && s[1..] == Pending(v, j + 1, m') + tail
  {
    hide Quoted;
    match m
    case Bare =>
      assert v[j..][1..] == v[j + 1..];
    case Joined(k) =>
      assert v[j..k][1..] == v[j + 1..k] && v[..k][j] == v[j];
      var q := Quoted(v[k..]);
      assert (v[j..k] + q + tail)[1..] == v[j + 1..k] + q + tail;
      assert j + 1 == k ==> v[j + 1..k] + q == q;
  }

  /** The first character tells what comes. */
  lemma AheadChar(v: Text, j: nat, m: Mode, tail: Text)
    requires Fits(v, j, m) && m != Done
    ensures Pending(v, j, m) != []
    ensures var c := (Pending(v, j, m) + tail)[0];
            match m
            case Quote => c == '\''
            case Slash => c == '\\'
            case Bare => PlainChar(c)
            case Joined(_) => PlainChar(c)
            case Done => true
  {
    hide Escaped;
    if m.Joined? { assert v[..m.k][j] == v[j]; }
  }

  class Parser {
    var buf: Text
    var pos: nat
    /** What is left of the file, and whether its end was seen. */
    var input: Text
    var eof: bool

    constructor (file: Text)
      ensures buf == [] && pos == 0 && input == file && !eof
    {
      buf, pos, input, eof := [], 0, file, false;
    }

    /** `pctx_char`; the line ends with a NUL. */
    function Char(i: nat): char
      reads this
    {
      if i < |buf| then buf[i] else NUL
    }

    /** What is left of the line. */
    function Line(): Text
      reads this
    {
      if pos <= |buf| then buf[pos..] else []
    }

    /** Everything that is not read yet. */
    function Unread(): Text
      reads this
    {
      Line() + input
    }

    ghost predicate Clean()
      reads this
    {
      pos <= |buf| && LineTail(Line(), input != []) && GoodFile(input, eof)
    }

    /** `uci_getln`. */
    method Getln(offset: nat)
      modifies this
      ensures pos == old(pos) && buf == Upto(old(buf), offset) + old(input)[..LineLen(old(input))]
      ensures input == old(input)[LineLen(old(input))..]
      ensures eof == (old(eof) || LineLen(old(input)) == 0 || old(input)[LineLen(old(input)) - 1] != '\n')
      ensures offset == pos <= |old(buf)| && old(GoodFile(input, eof)) ==>
              Unread() == old(input) && (old(input) != [] ==> Clean() && Line() != [])
    {
      hide LineTail, GoodFile;
      var n := LineLen(input);
      if input != [] && GoodFile(input, eof) { FirstLine(input, eof); }
      assert input[..n] + input[n..] == input;
      buf := Upto(buf, offset) + input[..n];
      eof := eof || n == 0 || input[n - 1] != '\n';
      input := input[n..];
    }

    /** `uci_getln` at the start of the buffer. */
    method NewLine()
      requires pos == 0
      modifies this
      ensures pos == 0 && |input| <= |old(input)| && (old(input) != [] ==> |input| < |old(input)|)
      ensures old(input) == [] ==> eof && buf == [] && input == []
      ensures old(GoodFile(input, eof)) && old(input) != [] ==>
        Clean() && Unread() == old(input) && Line() != [] && Char(0) != NUL
    {
      hide LineTail, GoodFile, LineLen;
      ghost var inp, eof0 := input, eof;
      if inp != [] && GoodFile(inp, eof0) { FirstLine(inp, eof0); }
      Getln(0);
      assert Upto(old(buf), 0) == [];
      assert buf == inp[..LineLen(inp)];
      assert inp[..LineLen(inp)] + inp[LineLen(inp)..] == inp;
    }

    /** What reading the character `c` does to a clean line. */
    ghost predicate Advanced(unread: Text, c: char)
      reads this
    {
      && unread != [] && c == unread[0] != NUL && Clean() && Unread() == unread[1..]
      && (c == '\n' ==> Line() == []) && (c != '\n' && Unread() != [] ==> Line() != [])
    }

    lemma Advance(line: Text)
      requires line != [] && pos <= |buf| && Line() == line[1..]
      requires LineTail(line, input != []) && GoodFile(input, eof)
      ensures Advanced(line + input, line[0])
    {
      assert (line + input)[1..] == line[1..] + input;
    }

    /** The next character of a clean line. */
    lemma Next()
      requires Clean()
      ensures Line() != [] ==> Unread() != [] && Char(pos) == Unread()[0] != NUL && pos < |buf|
      ensures Line() == [] ==> Char(pos) == NUL && pos == |buf|
    {
    }

    /** `pos += 1`. */
    method Skip()
      requires pos < |buf|
      modifies `pos
      ensures pos == old(pos) + 1 && (old(Clean()) ==> Advanced(old(Unread()), old(Char(pos))))
    {
      hide LineTail, NulFree, GoodFile;
      ghost var line, clean := Line(), Clean();
      pos := pos + 1;
      if clean { Advance(line); }
    }

    /** `addc`: copies the next character down. */
    method AddC(target: nat) returns (t: nat)
      requires target <= pos < |buf|
      modifies `buf, `pos
      ensures pos == old(pos) + 1 && t == target + 1 && |buf| == |old(buf)|
      ensures buf == old(buf)[target := old(Char(pos))]
      ensures old(Clean()) ==> Advanced(old(Unread()), old(Char(pos)))
    {
      hide LineTail, NulFree, GoodFile;
      ghost var line, b, clean := Line(), buf, Clean();
      buf := buf[target := buf[pos]];
      pos := pos + 1;
      t := target + 1;
      assert buf[pos..] == b[pos..];
      if clean { Advance(line); }
    }

    /** `uci_getln` at the current position. What is in front of it stays. */
    method More(ghost keep: nat) returns (found: bool)
      requires keep <= pos && keep <= |buf|
      modifies this
      ensures pos == old(pos) <= |buf| && buf[..keep] == old(buf)[..keep]
      ensures found == (Char(pos) != NUL)
      ensures |input| <= |old(input)| && (found ==> |input| < |old(input)|)
      ensures old(Clean()) && old(Line()) == [] && old(Unread()) != [] ==>
        Clean() && Unread() == old(Unread()) && found && Line() != []
      ensures old(input) == [] && old(pos) == |old(buf)| ==> !found
    {
      hide LineTail, NulFree, GoodFile, LineLen;
      ghost var clean := Clean() && Line() == [] && Unread() != [];
      Getln(pos);
      found := Char(pos) != NUL;
      if clean { Next(); }
    }

    /** What has been taken from a quoted string: `v` up to `t`, then `rest`. */
    ghost predicate Taken(target: nat, t: nat, v: Text, rest: Text)
      reads this
    {
      && Clean() && target <= t <= |buf| && t - target <= |v| && buf[target..t] == v[..t - target]
      && Unread() == v[t - target..] + rest
    }

    /** `parse_single_quote`. The writes stay behind the reads. A closing quote ends the
        string, whatever lines it spans. */
    method ParseSingleQuote(target: nat, ghost v: Text, ghost tail: Text) returns (ok: bool, t: nat)
      requires target <= pos < |buf|
      modifies this
      ensures target <= t < pos <= |buf| && buf[..target] == old(buf)[..target]
      ensures |input| <= |old(input)| && (ok ==> |input| < |old(input)| || |buf| - pos < |old(buf)| - old(pos))
      ensures old(Clean()) && old(Unread()) == "'" + v + "'" + tail && '\'' !in v ==>
        ok && Taken(target, t, v, tail) && t == target + |v| && (tail != [] ==> Line() != [])
    {
      hide Clean, LineLen, Unread, Line, Upto;
      ghost var hint := Clean() && Unread() == "'" + v + "'" + tail && '\'' !in v;
      t := target;
      if hint { Next(); QuoteStarts(v, tail); }
      Skip();
      while true
        invariant target <= t < pos <= |buf| && buf[..target] == old(buf)[..target]
        invariant |input| < |old(input)| || (|input| == |old(input)| && |buf| - pos < |old(buf)| - old(pos))
        invariant hint ==> Taken(target, t, v, "'" + tail)
        decreases |input|, |buf| - pos
      {
        var c := Char(pos);
        if hint { Next(); NextQuoted(v, t - target, tail); }
        if c == '\'' {
          Skip();
          return true, t;
        } else if c == NUL {
          ghost var b := buf;
          var found := More(t);
          Prefix(b, buf, target, t);
          if !found { return false, t; }
        } else {
          ghost var b := buf;
          t := AddC(t);
          TakenMore(b, buf, target, t, c);
        }
      }
    }

    /** `parse_backslash`: false at the end of a line, which the next one then replaces. */
    method ParseBackslash(ghost keep: nat) returns (take: bool)
      requires keep <= pos < |buf|
      modifies this
      ensures keep < pos <= |buf| && buf[..keep] == old(buf)[..keep]
      ensures take == !LineEnds(old(buf), old(pos) + 1)
      ensures take ==> pos < |buf| && Char(pos) != NUL && input == old(input) && |buf| - pos < |old(buf)| - old(pos)
      ensures !take ==> |input| < |old(input)| || (|input| == |old(input)| && |buf| - pos < |old(buf)| - old(pos))
      ensures old(Clean()) && old(Char(pos)) == '\\' ==>
              if Continues(old(Unread())) then !take && At(NextLine(old(Unread())))
              else take && Advanced(old(Unread()), '\\') && buf == old(buf)
    {
      hide Clean, Unread, Line, LineLen, Continues, NextLine, Advanced;
      ghost var s, clean := Unread(), Clean() && Char(pos) == '\\';
      if clean { LineGoesOn(); }
      Skip();
      if Char(pos) == NUL || Char(pos) == '\n' || (Char(pos) == '\r' && Char(pos + 1) == '\n' && Char(pos + 2) == NUL) {
        Getln(pos);
        return false;
      }
      take := true;
    }

    /** The reader is in front of `s`, or at the end of the file. */
    ghost predicate At(s: Text)
      reads this
    {
      Unread() == s && pos <= |buf| && (s != [] ==> Clean() && Line() != [])
    }

    /** Where the line of a backslash ends. */
    lemma LineGoesOn()
      requires Clean() && Char(pos) == '\\'
      ensures GoodFile(input, eof) && Unread() != []
      ensures LineEnds(buf, pos + 1) <==> Continues(Unread())
      ensures Continues(Unread()) ==> NextLine(Unread()) == input
    {
    }

    /** `parse_double_quote`. It fails exactly if no closing quote follows. */
    method ParseDoubleQuote(target: nat) returns (ok: bool, t: nat)
      requires target <= pos < |buf|
      modifies this
      ensures target <= t < pos <= |buf| && buf[..target] == old(buf)[..target]
      ensures |input| <= |old(input)| && (ok ==> |input| < |old(input)| || |buf| - pos < |old(buf)| - old(pos))
      ensures old(Clean()) && old(Char(pos)) == '"' ==>
              var u := Unwrap(old(Unread())[1..]);
              ok == u.Closed? && (ok ==> buf[target..t] == u.text && At(u.rest))
    {
      hide Clean, LineLen, Unread, Line, Upto, Unwrap, Continues, NextLine, Behind;
      ghost var hint, u := Clean() && Char(pos) == '"', Unwrapped.Unterminated;
      t := target;
      if hint { Next(); u := Unwrap(Unread()[1..]); }
      Skip();
      if hint { NothingYet(buf[t..t], Unread()); }
      while true
        invariant target <= t < pos <= |buf| && buf[..target] == old(buf)[..target]
        invariant |input| < |old(input)| || (|input| == |old(input)| && |buf| - pos < |old(buf)| - old(pos))
        invariant hint ==> Unwrapping(buf[target..t], u)
        decreases |input|, |buf| - pos
      {
        var c := Char(pos);
        ghost var s, b := Unread(), buf;
        if hint { Peek(); UnwrapStep(b[target..t], s); }
        if c == '"' {
          Skip();
          return true, t;
        } else if c == NUL {
          var found := More(t);
          Prefix(b, buf, target, t);
          if !found { return false, t; }
        } else {
          var take := true;
          if c == '\\' {
            take := ParseBackslash(t);
            Prefix(b, buf, target, t);
          }
          if take {
            if hint { Peek(); }
            b := buf;
            t := AddC(t);
            TakenMore(b, buf, target, t, buf[t - 1]);
          }
        }
      }
    }

    /** `v` was taken, and what is left decides what the string says. */
    ghost predicate Unwrapping(v: Text, u: Unwrapped)
      reads this
    {
      (Unread() != [] ==> Clean()) && u == Behind(v, Unwrap(Unread()))
    }

    /** The next character. */
    lemma Peek()
      requires pos <= |buf| && (Unread() != [] ==> Clean())
      ensures Char(pos) != NUL ==> Clean() && Unread() != [] && Char(pos) == Unread()[0]
      ensures Char(pos) == NUL ==> Line() == [] && pos == |buf| && (input != [] ==> Unread() != [] && Clean())
      ensures Char(pos) == NUL && input == [] ==> Unread() == []
    {
    }

    /** The text of an argument, as far as it is not read. */
    ghost predicate Reading(target: nat, t: nat, v: Text, m: Mode, tail: Text)
      reads this
    {
      && Clean() && Line() != [] && target <= t <= pos && t - target <= |v| && buf[target..t] == v[..t - target]
      && Fits(v, t - target, m) && Unread() == Pending(v, t - target, m) + tail
    }

    /** One turn of the loop of `parse_str`: a quoted part. */
    method TakeQuoted(target: nat, t0: nat, ghost v: Text, ghost m: Mode, ghost tail: Text)
      returns (ok: bool, t: nat, ghost m': Mode)
      requires target <= t0 <= pos < |buf|
      modifies this
      ensures target <= t <= pos <= |buf| && buf[..target] == old(buf)[..target]
      ensures |input| <= |old(input)| && (ok ==> |input| < |old(input)| || |buf| - pos < |old(buf)| - old(pos))
      ensures old(Reading(target, t0, v, m, tail)) && m == Quote && Spaced(tail) ==>
              ok && Reading(target, t, v, m', tail)
    {
      hide Clean, LineLen, Unread, Line, Upto, Quoted, Segment, AfterSegment;
      ghost var hint := Reading(target, t0, v, m, tail) && m == Quote && Spaced(tail);
      ghost var j, u, after, b := t0 - target, [], [], buf;
      if hint {
        AheadQuote(v, j, tail);
        u, after := Segment(v, j), AfterSegment(v, j, tail);
      }
      ok, t := ParseSingleQuote(t0, u, after);
      m' := if j + |u| == |v| then Done else Slash;
      Prefix(b, buf, target, t0);
      if hint {
        AfterNext(v, j, tail);
        Extend(b, buf, target, t0, t, v, u);
      }
    }

    /** An escaped character, or the end of a line. */
    method TakeEscaped(target: nat, t0: nat, ghost v: Text, ghost m: Mode, ghost tail: Text)
      returns (t: nat, ghost m': Mode)
      requires target <= t0 <= pos < |buf|
      modifies this
      ensures target <= t <= pos <= |buf| && buf[..target] == old(buf)[..target]
      ensures |input| < |old(input)| || (|input| == |old(input)| && |buf| - pos < |old(buf)| - old(pos))
      ensures old(Reading(target, t0, v, m, tail)) && m == Slash && Spaced(tail) ==> Reading(target, t, v, m', tail)
    {
      hide Clean, LineLen, Unread, Line, Upto, Quoted, Pending;
      ghost var hint := Reading(target, t0, v, m, tail) && m == Slash && Spaced(tail);
      ghost var j, b0 := t0 - target, buf;
      t := t0;
      if hint {
        AheadSlash(v, j, tail);
        Next();
      }
      var take := ParseBackslash(t);
      Prefix(b0, buf, target, t0);
      m' := Quote;
      if take {
        ghost var b := buf;
        if hint { Next(); }
        t := AddC(t);
        TakenMore(b, buf, target, t, buf[t - 1]);
        if hint { AheadChar(v, j + 1, Quote, tail); }
      }
    }

    /** Any other character. */
    method TakeBare(target: nat, t0: nat, ghost v: Text, ghost m: Mode, ghost tail: Text)
      returns (t: nat, ghost m': Mode)
      requires target <= t0 <= pos < |buf|
      modifies this
      ensures target <= t <= pos <= |buf| && buf[..target] == old(buf)[..target]
      ensures input == old(input) && |buf| - pos < |old(buf)| - old(pos)
      ensures old(Reading(target, t0, v, m, tail)) && (m.Bare? || m.Joined?) && Spaced(tail) ==>
              Reading(target, t, v, m', tail)
    {
      hide Clean, LineLen, Unread, Line, Upto, Quoted, Pending, Fits;
      ghost var hint := Reading(target, t0, v, m, tail) && (m.Bare? || m.Joined?) && Spaced(tail);
      ghost var j, b := t0 - target, buf;
      if hint {
        AheadBare(v, j, m, tail);
        Next();
      }
      t := AddC(t0);
      TakenMore(b, buf, target, t, buf[t - 1]);
      m' := AfterBare(v, j, m);
    }

    method TakePiece(target: nat, t0: nat, ghost v: Text, ghost m: Mode, ghost tail: Text)
      returns (how: Turn, t: nat, ghost m': Mode)
      requires target <= t0 <= pos <= |buf|
      modifies this
      ensures target <= t <= pos <= |buf| && buf[..target] == old(buf)[..target]
      ensures old(Char(pos)) == NUL ==>
              how == Stop && t == t0 && pos == old(pos) && buf == old(buf) && input == old(input) && eof == old(eof)
      ensures how != Fail ==> |input| < |old(input)| || |buf| - pos <= |old(buf)| - old(pos)
      ensures |input| <= |old(input)| && (how == Go ==> |input| < |old(input)| || |buf| - pos < |old(buf)| - old(pos))
      ensures old(Reading(target, t0, v, m, tail)) && m != Done && Spaced(tail) ==>
              how == Go && Reading(target, t, v, m', tail)
    {
      hide Clean, LineLen, Unread, Line, Upto, Pending, Fits, Spaced;
      m', t := m, t0;
      if Reading(target, t0, v, m, tail) && m != Done {
        Next();
        AheadChar(v, t0 - target, m, tail);
      }
      var c := Char(pos);
      if c == '\'' {
        var ok;
        ok, t, m' := TakeQuoted(target, t0, v, m, tail);
        how := if ok then Go else Fail;
      } else if c == '"' {
        var ok;
        ghost var b := buf;
        ok, t := ParseDoubleQuote(t0);
        Prefix(b, buf, target, t0);
        how := if ok then Go else Fail;
      } else if c == '#' {
        buf := buf[pos := NUL];
        how := Stop;
      } else if c == NUL {
        how := Stop;
      } else if c == ';' {
        how := Semicolon;
      } else if c == '\\' {
        t, m' := TakeEscaped(target, t0, v, m, tail);
        how := Go;
      } else {
        t, m' := TakeBare(target, t0, v, m, tail);
        how := Go;
      }
    }

    /** The argument `v` is at `val`, ended by a NUL, behind the position of the reader. */
    predicate ArgAt(val: nat, v: Text)
      reads this
    {
      val + |v| < pos <= |buf| && buf[val..val + |v|] == v && buf[val + |v|] == NUL
    }

    /** The reader is behind an argument and the white space that ends it. */
    ghost predicate Past(tail: Text)
      reads this
    {
      && tail != [] && Clean() && Unread() == tail[1..]
      && (tail[0] == '\n' ==> Line() == []) && (tail[0] != '\n' && Unread() != [] ==> Line() != [])
    }

    /** `parse_str`: an argument in any mixture of quoting. The position of the writer
        never passes that of the reader. */
    method ParseStr(ghost v: Text, ghost m0: Mode, ghost tail: Text) returns (ok: bool, t: nat)
      requires pos <= |buf|
      modifies this
      ensures old(pos) <= t <= pos <= |buf| && buf[..old(pos)] == old(buf)[..old(pos)]
      ensures |input| <= |old(input)| && (ok ==> |input| < |old(input)| || |buf| - pos <= |old(buf)| - old(pos))
      ensures old(Reading(pos, pos, v, m0, tail)) && m0 != Done && Spaced(tail) ==>
              ok && ArgAt(old(pos), v) && Past(tail)
      ensures old(pos) == |old(buf)| ==>
              ok && pos == old(pos) && buf == old(buf) && input == old(input) && eof == old(eof)
    {
      hide Clean, LineLen, Unread, Line, Upto, Pending, Fits;
      var target, next := pos, true;
      ghost var hint, m := Reading(pos, pos, v, m0, tail) && m0 != Done && Spaced(tail), m0;
      t := pos;
      while true
        invariant target <= t <= pos <= |buf| && buf[..target] == old(buf)[..target]
        invariant |input| < |old(input)| || (|input| == |old(input)| && |buf| - pos <= |old(buf)| - old(pos))
        invariant old(pos) == |old(buf)| ==>
                  pos == old(pos) == t && buf == old(buf) && input == old(input) && eof == old(eof)
        invariant next && (hint ==> Reading(target, t, v, m, tail) && m != Done)
        decreases |input|, |buf| - pos
      {
        var how;
        how, t, m := TakePiece(target, t, v, m, tail);
        if how == Fail { return false, t; }
        if how == Semicolon { next := false; }
        if how != Go { break; }
        if hint { Goes(target, t, v, m, tail); }
        if Char(pos) == NUL || IsSpace(Char(pos)) { break; }
      }
      assert hint ==> next && Reading(target, t, v, Done, tail);
      ok := true;
      Terminate(target, t, next, v, tail);
    }

    /** After a turn, the next character is white space exactly at the end. */
    lemma Goes(target: nat, t: nat, v: Text, m: Mode, tail: Text)
      requires Reading(target, t, v, m, tail) && Spaced(tail)
      ensures Char(pos) != NUL && (IsSpace(Char(pos)) <==> m == Done)
    {
      hide Clean, Pending, Fits;
      Next();
      if m != Done {
        AheadChar(v, t - target, m, tail);
      } else {
        DoneText(v, t - target, tail);
      }
    }

    /** The end of `parse_str`. */
    method Terminate(target: nat, t: nat, next: bool, ghost v: Text, ghost tail: Text)
      requires target <= t <= pos <= |buf|
      modifies `buf, `pos
      ensures t <= pos <= |buf| && buf[..target] == old(buf)[..target] && |buf| == |old(buf)| && pos >= old(pos)
      ensures t == |old(buf)| ==> pos == old(pos) && buf == old(buf)
      ensures next && old(Reading(target, t, v, Done, tail)) && Spaced(tail) ==> ArgAt(target, v) && Past(tail)
    {
      hide Clean, Line, Unread, LineLen, Upto, Pending, Fits, IsSpace;
      ghost var hint := next && Reading(target, t, v, Done, tail) && Spaced(tail);
      if hint {
        Next();
        DoneText(v, t - target, tail);
      }
      if Char(pos) != NUL && next {
        Skip();
      }
      ghost var b := buf;
      PutNul(t, tail);
      if hint { assert buf[target..t] == b[target..t]; }
    }

    /** `pctx_char(pctx, t) = 0`. */
    method PutNul(t: nat, ghost tail: Text)
      requires t <= pos <= |buf|
      modifies `buf
      ensures buf == if t < |old(buf)| then old(buf)[t := NUL] else old(buf)
      ensures old(Past(tail)) && t < pos ==> Past(tail)
    {
      hide LineTail, NulFree, GoodFile;
      ghost var b := buf;
      if t < |buf| {
        buf := buf[t := NUL];
      }
      assert t < pos ==> buf[pos..] == b[pos..];
    }

    /** `skip_whitespace`. */
    method SkipWhitespace(ghost sp: Text, ghost rest: Text)
      requires pos <= |buf|
      modifies `pos
      ensures old(pos) <= pos <= |buf|
      ensures old(Clean()) && old(Unread()) == sp + rest && Blank(sp) && old(Line()) != [] && rest != []
              && !IsSpace(rest[0]) ==>
        Clean() && Unread() == rest && Line() != []
      ensures old(Clean()) && old(Line()) != [] && old(Unread())[0] == '\n' ==>
        Clean() && Unread() == old(Unread())[1..] && Line() == []
      ensures old(Clean()) && old(Line()) == [] ==> pos == old(pos)
    {
      hide Clean, Unread, Line, LineLen;
      ghost var text := Clean() && Unread() == sp + rest && Blank(sp) && Line() != [] && rest != []
          && !IsSpace(rest[0]);
      ghost var newline := Clean() && Line() != [] && Unread() != [] && Unread()[0] == '\n';
      ghost var ended := Clean() && Line() == [];
      ghost var k, u := 0, Unread();
      if Clean() { Next(); }
      while Char(pos) != NUL && IsSpace(Char(pos))
        invariant old(pos) <= pos <= |buf|
        invariant text ==> k <= |sp| && Clean() && Unread() == sp[k..] + rest && Line() != []
        invariant newline && pos == old(pos) ==> Clean() && Unread() == u && Line() != []
        invariant newline && pos != old(pos) ==> Clean() && Unread() == u[1..] && Line() == []
        invariant ended ==> pos == old(pos)
        decreases |buf| - pos
      {
        if text {
          Next();
          if k < |sp| { BlankNext(sp, k, rest); }
        }
        if newline { Next(); }
        Skip();
        k := k + 1;
      }
      if newline || text { Next(); }
    }

    /** `next_arg`: where the argument starts, or no success when it is missing or not a
        valid name. */
    method NextArg(required: bool, name: bool, package: bool, ghost sp: Text, ghost v: Text, ghost m: Mode,
                   ghost tail: Text)
        returns (ok: bool, val: nat)
      requires pos <= |buf|
      modifies this
      ensures old(pos) <= val <= pos <= |buf| && buf[..old(pos)] == old(buf)[..old(pos)]
      ensures |input| <= |old(input)| && (ok ==> |input| < |old(input)| || |buf| - pos <= |old(buf)| - old(pos))
      ensures ok && required ==> Char(val) != NUL
      ensures ok && name && Char(val) != NUL ==> ValidStr(CStr(buf, val), true, package)
      ensures old(Expecting(sp, v, m, tail)) && (v != [] || !required)
              && (name ==> v == [] || ValidStr(v, true, package)) ==>
        ok && ArgAt(val, v) && Past(tail)
      ensures old(Clean()) && old(Line()) == [] && !required ==>
        ok && pos == old(pos) == val && buf == old(buf) && Char(val) == NUL && input == old(input) && eof == old(eof)
    {
      hide Clean, Unread, Line, LineLen, Pending, Fits, Reading, Past, Spaced;
      ghost var hint := Expecting(sp, v, m, tail);
      if hint { AheadChar(v, 0, m, tail); }
      SkipWhitespace(sp, if hint then Pending(v, 0, m) + tail else []);
      val := pos;
      ghost var b := buf;
      if Clean() { Next(); }
      if Char(pos) == ';' {
        buf := buf[pos := NUL];
        pos := pos + 1;
      } else {
        if hint { Begin(v, m, tail); }
        var t;
        ok, t := ParseStr(v, m, tail);
        if !ok { return; }
      }
      Prefix(b, buf, old(pos), val);
      if hint && v != [] { assert Char(val) == buf[val..val + |v|][0] == v[0] != NUL; }
      if Char(val) == NUL {
        ok := !required;
        return;
      }
      if hint { StrIs(buf, val, v); }
      ok := true;
      if name {
        ok := ValidateStr(CStr(buf, val), true, package);
      }
    }

    /** White space, then an argument, then white space. */
    ghost predicate Expecting(sp: Text, v: Text, m: Mode, tail: Text)
      reads this
    {
      && Clean() && Line() != [] && Blank(sp) && Fits(v, 0, m) && NulFree(v) && m != Slash && m != Done && Spaced(tail)
      && Unread() == sp + (Pending(v, 0, m) + tail)
    }

    lemma Begin(v: Text, m: Mode, tail: Text)
      requires Clean() && Line() != [] && Fits(v, 0, m) && Unread() == Pending(v, 0, m) + tail
      ensures Reading(pos, pos, v, m, tail)
    {
    }

    /** strtok, and moving behind the word, as every command does. */
    method Word(ghost kw: Text, ghost more: Text) returns (found: bool, word: Text)
      requires pos <= |buf|
      modifies `buf, `pos
      ensures pos <= |buf| == |old(buf)|
      ensures if found then old(pos) < pos else pos == old(pos) && buf == old(buf)
      ensures old(Clean()) && old(Line()) != [] && old(Unread()) == kw + " " + more && Letters(kw) ==>
        found && word == kw && Clean() && Unread() == more && (more != [] ==> Line() != [])
      ensures old(Clean()) && old(Line()) == [] ==> !found
    {
      hide LineTail, NulFree, GoodFile, LineLen;
      ghost var hint := Clean() && Line() != [] && Unread() == kw + " " + more && Letters(kw);
      word := [];
      if Clean() { Next(); }
      if hint { WordAhead(buf, pos, input, kw, more); }
      var w := pos;
      while w < |buf| && (buf[w] == ' ' || buf[w] == '\t')
        invariant pos <= w <= |buf| && (hint ==> w == pos)
      {
        w := w + 1;
      }
      found := Char(w) != NUL;
      if !found { return; }
      var e := w;
      while e < |buf| && buf[e] != NUL && buf[e] != ' ' && buf[e] != '\t'
        invariant w <= e <= |buf| && (hint ==> e <= pos + |kw|)
                  && (e > w || (buf[e] != NUL && buf[e] != ' ' && buf[e] != '\t'))
      {
        e := e + 1;
      }
      word := buf[w..e];
      ghost var b, p := buf, pos;
      if e < |buf| {
        buf := buf[e := NUL];
      }
      pos := if e + 1 < |buf| then e + 1 else |buf|;
      if hint { assert e == p + |kw|; assert buf[pos..] == b[pos..]; }
    }
  }

  predicate Letters(s: Text) { s != [] && forall i :: 0 <= i < |s| ==> 'a' <= s[i] <= 'z' }

  /** A prefix without a newline is all in the line. */
  lemma InLine(line: Text, input: Text, pre: Text, more: Text)
    requires line != [] && LineTail(line, input != []) && line + input == pre + more && '\n' !in pre
    ensures |pre| <= |line| && line[..|pre|] == pre && line[|pre|..] + input == more && (more != [] ==> |line| > |pre|)
  {
    assert (line + input)[|line| - 1] == line[|line| - 1];
    assert |line| <= |pre| ==> (pre + more)[|line| - 1] == pre[|line| - 1];
    assert line[..|pre|] == (line + input)[..|pre|] == (pre + more)[..|pre|];
    assert line[|pre|..] + input == (line + input)[|pre|..] == (pre + more)[|pre|..];
  }

  lemma WordAhead(b: Text, pos: nat, input: Text, kw: Text, more: Text)
    requires pos < |b| && LineTail(b[pos..], input != []) && Letters(kw) && b[pos..] + input == kw + " " + more
    ensures pos + |kw| < |b| && b[pos..pos + |kw|] == kw && b[pos + |kw|] == ' ' && b[pos + |kw| + 1..] + input == more
    ensures forall i :: pos <= i < pos + |kw| ==> b[i] != NUL && b[i] != ' ' && b[i] != '\t'
    ensures more != [] ==> pos + |kw| + 1 < |b|
    ensures LineTail(b[pos + |kw| + 1..], input != [])
  {
    var n, pre, x := |kw|, kw + " ", b[pos..];
    InLine(x, input, pre, more);
    forall i | pos <= i <= pos + n
      ensures b[i] == pre[i - pos]
    {
      assert b[i] == x[i - pos] == x[..n + 1][i - pos];
    }
    assert forall i :: pos <= i < pos + n ==> b[i] == kw[i - pos];
    assert b[pos..pos + n] == kw && x[n + 1..] == b[pos + n + 1..];
  }

  lemma BlankNext(sp: Text, k: nat, rest: Text)
    requires Blank(sp) && k < |sp|
    ensures var s := sp[k..] + rest; s[0] == sp[k] && s[0] != '\n' && s[1..] == sp[k + 1..] + rest
  {
  }

  /** An argument in the buffer, as a C string. */
  lemma StrIs(b: Text, i: nat, v: Text)
    requires i + |v| < |b| && b[i..i + |v|] == v && b[i + |v|] == NUL && NulFree(v)
    ensures CStr(b, i) == v && StrEnd(b, i) == i + |v|
  {
    forall k | 0 <= k < |v|
      ensures b[i + k] == v[k]
    {
      assert b[i..i + |v|][k] == v[k];
    }
  }

  lemma DoneText(v: Text, j: nat, tail: Text)
    requires Fits(v, j, Done)
    ensures j == |v| && v[..j] == v && Pending(v, j, Done) + tail == tail
  {
  }

  /** What follows a quoted part. */
  lemma AfterNext(v: Text, j: nat, tail: Text)
    requires Fits(v, j, Quote)
    ensures var k := j + |Segment(v, j)|; var m := if k == |v| then Done else Slash;
            Fits(v, k, m) && AfterSegment(v, j, tail) == Pending(v, k, m) + tail
  {
    hide Quoted;
  }

  lemma Prefix(b: Text, b': Text, target: nat, t: nat)
    requires target <= t <= |b| && t <= |b'| && b'[..t] == b[..t]
    ensures b'[..target] == b[..target] && b'[target..t] == b[target..t]
  {
    assert b'[..target] == b'[..t][..target] && b[..target] == b[..t][..target];
    assert b'[target..t] == b'[..t][target..] && b[target..t] == b[..t][target..];
  }

  /** A part copied behind what is there. */
  lemma Extend(b: Text, b': Text, target: nat, t0: nat, t: nat, v: Text, u: Text)
    requires target <= t0 <= |b| && t0 <= t <= |b'| && b'[..t0] == b[..t0] && t == t0 + |u| && b'[t0..t] == u
    requires t - target <= |v| && b[target..t0] == v[..t0 - target] && v[t0 - target..t - target] == u
    ensures b'[target..t] == v[..t - target]
  {
    Prefix(b, b', target, t0);
    assert b'[target..t] == b'[target..t0] + b'[t0..t];
    assert v[..t - target] == v[..t0 - target] + u;
  }

  lemma QuoteStarts(v: Text, tail: Text)
    ensures var s := "'" + v + "'" + tail; s[0] == '\'' && s[1..] == v[0..] + ("'" + tail)
  {
  }

  lemma NextQuoted(v: Text, j: nat, tail: Text)
    requires j <= |v|
    ensures var s := v[j..] + ("'" + tail);
            if j == |v| then s[0] == '\'' && s[1..] == tail else s[0] == v[j] && s[1..] == v[j + 1..] + ("'" + tail)
  {
  }

  lemma TakenMore(b: Text, b': Text, target: nat, t: nat, c: char)
    requires target < t <= |b| && b' == b[t - 1 := c]
    ensures b'[..target] == b[..target] && b'[target..t] == b[target..t - 1] + [c]
  {
  }
}
