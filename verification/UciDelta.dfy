/** delta.c and util.c of libuci: records of changes, written and read back. */
module UciDelta {
  import opened UciText
  import opened UciParse
  import opened UciConfig

  datatype Cmd = ADD | REMOVE | CHANGE | RENAME | REORDER | LIST_ADD | LIST_DEL

  datatype Delta = Delta(cmd: Cmd, section: Text, option: Maybe<Text>, value: Maybe<Text>)

  /** What `uci_parse_ptr` fills in. */
  datatype Ptr = Ptr(package: Text, section: Maybe<Text>, option: Maybe<Text>, value: Maybe<Text>, extended: bool)

  const Cmds := [ADD, REMOVE, CHANGE, RENAME, REORDER, LIST_ADD, LIST_DEL]

  /** `uci_command_char`. */
  function CmdChar(c: Cmd): char {
    match c
    case ADD => '+'
    case REMOVE => '-'
    case CHANGE => NUL
    case RENAME => '@'
    case REORDER => '^'
    case LIST_ADD => '|'
    case LIST_DEL => '~'
  }

  function CmdPrefix(c: Cmd): Text { if c == CHANGE then [] else [CmdChar(c)] }

  /** What a record is about. */
  function Target(name: Text, d: Delta): Text {
    name + "." + d.section + if d.option.Some? then "." + d.option.value else []
  }

  /** A record as one argument, without quoting. */
  function Arg(name: Text, d: Delta): Text {
    CmdPrefix(d.cmd) + Target(name, d) + if d.value.Some? then "=" + d.value.value else []
  }

  function SaveText(name: Text, d: Delta): Text {
    CmdPrefix(d.cmd) + Target(name, d) + if d.value.Some? then "=" + Quoted(d.value.value) + "\n" else "\n"
  }

  /** The text of a record, character by character. */
  lemma SaveTextIs(name: Text, d: Delta)
    ensures SaveText(name, d) ==
            (match d.cmd
             case ADD => "+"
             case REMOVE => "-"
             case CHANGE => ""
             case RENAME => "@"
             case REORDER => "^"
             case LIST_ADD => "|"
             case LIST_DEL => "~")
            + name + "." + d.section + (if d.option.Some? then "." + d.option.value else [])
            + (if d.value.Some? then "='" + Escaped(d.value.value) + "'\n" else "\n")
  {
    hide Escaped;
    var c := CmdPrefix(d.cmd);
    var o := if d.option.Some? then "." + d.option.value else [];
    assert c + (name + "." + d.section + o) == c + name + "." + d.section + o;
    if d.value.Some? {
      var e := Escaped(d.value.value);
      assert "=" + ("'" + e + "'") + "\n" == "='" + e + "'\n";
    }
  }

  lemma EscapedStep(v: Text)
    requires v != []
    ensures Escaped(v) == (if v[0] == '\'' then QUOTE_ESCAPE else [v[0]]) + Escaped(v[1..])
  {
  }

  /** `uci_delta_save`, which escapes character by character. */
  method Save(name: Text, d: Delta) returns (out: Text)
    requires d.cmd != REMOVE ==> d.value.Some?
    ensures out == SaveText(name, d)
  {
    hide Escaped;
    out := CmdPrefix(d.cmd) + (name + "." + d.section);
    if d.option.Some? {
      out := out + ("." + d.option.value);
    }
    assert out == CmdPrefix(d.cmd) + Target(name, d);
    if d.cmd == REMOVE && d.value.None? {
      out := out + "\n";
      return;
    }
    var v, i, text := d.value.value, 0, [];
    assert v[0..] == v;
    while i < |v|
      invariant i <= |v| && text + Escaped(v[i..]) == Escaped(v)
    {
      EscapedStep(v[i..]);
      assert v[i..][1..] == v[i + 1..];
      if v[i] != '\'' {
        text := text + [v[i]];
      } else {
        text := text + QUOTE_ESCAPE;
      }
      i := i + 1;
    }
    EscapedAt([], 0);
    assert v[i..] == [];
    out := out + ("=" + ("'" + text + "'") + "\n");
  }

  // ----- reading

  /** strchr, or the end. */
  function Find(s: Text, c: char): (i: nat)
    ensures i <= |s| && (i < |s| ==> s[i] == c) && forall k :: 0 <= k < i ==> s[k] != c
  {
    if s == [] || s[0] == c then 0 else 1 + Find(s[1..], c)
  }

  lemma FindAt(s: Text, c: char, i: nat)
    requires i <= |s| && (i < |s| ==> s[i] == c) && forall k :: 0 <= k < i ==> s[k] != c
    ensures Find(s, c) == i
  {
  }

  /** strsep: the part up to the delimiter, and what is behind it. */
  function Sep(s: Maybe<Text>): (Maybe<Text>, Maybe<Text>) {
    if s.None? then (None, None)
    else var i := Find(s.value, '.'); (Some(s.value[..i]), if i < |s.value| then Some(s.value[i + 1..]) else None)
  }

  /** `uci_parse_ptr`. */
  function ParsePtr(s: Text): Result<Ptr> {
    var e := Find(s, '=');
    var value := if e < |s| then Some(s[e + 1..]) else None;
    var a := Sep(Some(s[..e]));
    var b := Sep(a.1);
    var c := Sep(b.1);
    if c.1.Some? then Err(ParseError)
    else if !ValidPackage(a.0.value) then Err(ParseError)
    else if c.0.Some? && !ValidName(c.0.value) then Err(ParseError)
    else if value.Some? && !ValidText(value.value) then Err(ParseError)
    else Ok(Ptr(a.0.value, b.0, c.0, value, b.0.Some? && !ValidName(b.0.value)))
  }

  /** The command a character stands for. */
  function CmdOf(c: char): Cmd {
    if c == '+' then ADD else if c == '-' then REMOVE else if c == '@' then RENAME
    else if c == '^' then REORDER else if c == '|' then LIST_ADD else if c == '~' then LIST_DEL else CHANGE
  }

  /** `uci_parse_delta_tuple` on its argument. */
  function Tuple(arg: Text): Result<(Cmd, Ptr)> {
    var c := if arg == [] then CHANGE else CmdOf(arg[0]);
    var r := ParsePtr(if c != CHANGE then arg[1..] else arg);
    if r.Err? then Err(r.error)
    else
      var ptr := r.value;
      if ptr.section.None? || ptr.extended || (c != REMOVE && ptr.value.None?) then Err(Invalid)
      else if c == REORDER && (ptr.value.None? || ptr.option.Some?) then Err(Invalid)
      else if c == RENAME && (ptr.value.None? || !ValidName(ptr.value.value)) then Err(Invalid)
      else if (c == LIST_ADD || c == LIST_DEL) && ptr.option.None? then Err(Invalid)
      else Ok((c, ptr))
  }

  /** Records with valid names and text, and what their commands need. */
  predicate GoodDelta(name: Text, d: Delta) {
    && ValidStr(name, true, true) && ValidName(d.section) && (d.option.Some? ==> ValidName(d.option.value))
    && (d.value.Some? ==> ValidText(d.value.value)) && (d.cmd != REMOVE ==> d.value.Some?)
    && (d.cmd == REORDER ==> d.option.None?) && (d.cmd == RENAME ==> ValidName(d.value.value))
    && (d.cmd == LIST_ADD || d.cmd == LIST_DEL ==> d.option.Some?)
  }

  function Back(name: Text, d: Delta): Ptr { Ptr(name, Some(d.section), d.option, d.value, false) }

  lemma SepAt(a: Text, b: Text)
    requires '.' !in a
    ensures Sep(Some(a + "." + b)) == (Some(a), Some(b)) && Sep(Some(a)) == (Some(a), None)
  {
    hide Find;
    var s := a + "." + b;
    FindAt(s, '.', |a|);
    assert s[..|a|] == a && s[|a| + 1..] == b;
    FindAt(a, '.', |a|);
    assert a[..|a|] == a;
  }

  lemma NameChars(s: Text, package: bool)
    requires ValidStr(s, true, package)
    ensures '.' !in s && '=' !in s && Plain(s) && NulFree(s) && ValidPackage(s)
  {
  }

  /** What a record is about is read back. */
  lemma PtrBack(name: Text, d: Delta)
    requires GoodDelta(name, d)
    ensures ParsePtr(Target(name, d) + if d.value.Some? then "=" + d.value.value else []) == Ok(Back(name, d))
  {
    hide Find, Sep, ValidStr, ValidText, Plain, NulFree;
    var t := Target(name, d);
    var s := t + if d.value.Some? then "=" + d.value.value else [];
    NameChars(name, true);
    NameChars(d.section, false);
    if d.option.Some? { NameChars(d.option.value, false); }
    TargetSep(name, d);
    assert forall k :: 0 <= k < |t| ==> s[k] == t[k];
    FindAt(s, '=', |t|);
    assert s[..|t|] == t;
    if d.value.Some? { assert s[|t| + 1..] == d.value.value; }
  }

  lemma TargetSep(name: Text, d: Delta)
    requires '.' !in name && '=' !in name && '.' !in d.section && '=' !in d.section
    requires d.option.Some? ==> '.' !in d.option.value && '=' !in d.option.value
    ensures '=' !in Target(name, d)
    ensures var a := Sep(Some(Target(name, d))); var b := Sep(a.1);
            a.0 == Some(name) && b.0 == Some(d.section) && Sep(b.1) == (d.option, None)
  {
    hide Find, Sep;
    var o := if d.option.Some? then "." + d.option.value else [];
    assert Target(name, d) == name + "." + (d.section + o);
    SepAt(name, d.section + o);
    if d.option.Some? {
      assert d.section + o == d.section + "." + d.option.value;
      SepAt(d.section, d.option.value);
      SepAt(d.option.value, []);
    } else {
      assert d.section + o == d.section;
      SepAt(d.section, []);
      SepNone();
    }
  }

  lemma SepNone()
    ensures Sep(None) == (None, None)
  {
  }

  /** A record is read back as it was written, except that a change without a command
      character, to a package whose name starts with `-`, looks like a removal from the
      package named by the rest, and is an error if there is no rest. */
  lemma TupleBack(name: Text, d: Delta)
    requires GoodDelta(name, d)
    ensures Tuple(Arg(name, d)) == Ok((d.cmd, Back(name, d))) <==> d.cmd != CHANGE || name[0] != '-'
    ensures d.cmd == CHANGE && name[0] == '-' ==>
      Tuple(Arg(name, d)) == if name == "-" then Err(ParseError) else Ok((REMOVE, Back(name[1..], d)))
  {
    hide ParsePtr, ValidText, ValidStr, Target;
    PtrBack(name, d);
    NameChars(name, true);
    var arg := Arg(name, d);
    var v := if d.value.Some? then "=" + d.value.value else [];
    if d.cmd == CHANGE {
      TargetFirst(name, d);
      assert arg == Target(name, d) + v && arg[0] == name[0];
      if name[0] == '-' { Misread(name, d); }
      assert CmdOf(name[0]) == (if name[0] == '-' then REMOVE else CHANGE) by { NameSigns(name); }
    } else {
      assert arg == [CmdChar(d.cmd)] + (Target(name, d) + v);
      assert arg[0] == CmdChar(d.cmd) && arg[1..] == Target(name, d) + v;
    }
  }

  /** strsep takes nothing away but the delimiter. */
  lemma SepWhole(s: Maybe<Text>)
    ensures s.Some? ==>
              var (a, b) := Sep(s);
              && a.Some? && '.' !in a.value && s.value == a.value + (if b.Some? then "." + b.value else [])
              && (b.None? ==> s.value == a.value)
    ensures s.None? ==> Sep(s) == (None, None)
  {
    hide Find;
    if s.Some? {
      var i := Find(s.value, '.');
      assert s.value == s.value[..i] + s.value[i..];
      if i < |s.value| { assert s.value[i..] == "." + s.value[i + 1..]; }
    }
  }

  /** What is accepted is the text of what comes out, and fit for the command. */
  lemma PtrOnly(s: Text)
    requires ParsePtr(s).Ok?
    ensures var p := ParsePtr(s).value;
            && ValidPackage(p.package) && (p.option.Some? ==> p.section.Some? && ValidName(p.option.value))
            && (p.section.Some? ==> (p.extended <==> !ValidName(p.section.value)))
            && (p.value.Some? ==> ValidText(p.value.value))
            && s == p.package + (if p.section.Some? then "." + p.section.value else [])
                    + (if p.option.Some? then "." + p.option.value else [])
                    + (if p.value.Some? then "=" + p.value.value else [])
  {
    hide Find, Sep, ValidStr, ValidText;
    var e := Find(s, '=');
    var a := Sep(Some(s[..e]));
    var b := Sep(a.1);
    var c := Sep(b.1);
    SepWhole(Some(s[..e]));
    SepWhole(a.1);
    SepWhole(b.1);
    Parts(s[..e], a.0.value, a.1, b.0, b.1, c.0);
    ValuePart(s, e);
  }

  lemma Parts(h: Text, pkg: Text, r1: Maybe<Text>, sec: Maybe<Text>, r2: Maybe<Text>, opt: Maybe<Text>)
    requires h == pkg + (if r1.Some? then "." + r1.value else [])
    requires if r1.Some? then sec.Some? && r1.value == sec.value + (if r2.Some? then "." + r2.value else [])
             else sec.None? && r2.None?
    requires if r2.Some? then opt == Some(r2.value) else opt.None?
    ensures opt.Some? ==> sec.Some?
    ensures h == pkg + (if sec.Some? then "." + sec.value else []) + (if opt.Some? then "." + opt.value else [])
  {
    if opt.Some? {
      assert pkg + ("." + (sec.value + ("." + opt.value))) == pkg + ("." + sec.value) + ("." + opt.value);
    }
  }

  lemma ValuePart(s: Text, e: nat)
    requires e <= |s| && (e < |s| ==> s[e] == '=')
    ensures s == s[..e] + if e < |s| then "=" + s[e + 1..] else []
  {
  }

  lemma TupleOnly(arg: Text)
    requires Tuple(arg).Ok?
    ensures var (c, p) := Tuple(arg).value;
            && ValidPackage(p.package) && p.section.Some? && ValidName(p.section.value)
            && (p.option.Some? ==> ValidName(p.option.value)) && (p.value.Some? ==> ValidText(p.value.value))
            && (c != REMOVE ==> p.value.Some?) && (c == REORDER ==> p.option.None?)
            && (c == RENAME ==> ValidName(p.value.value)) && (c == LIST_ADD || c == LIST_DEL ==> p.option.Some?)
            && arg == Arg(p.package, Delta(c, p.section.value, p.option, p.value))
  {
    hide ParsePtr, ValidText, ValidStr, CmdOf, CmdPrefix, Target;
    var c := if arg == [] then CHANGE else CmdOf(arg[0]);
    var rest := if c != CHANGE then arg[1..] else arg;
    PtrOnly(rest);
    var p := ParsePtr(rest).value;
    var d := Delta(c, p.section.value, p.option, p.value);
    var t, v := Target(p.package, d), if p.value.Some? then "=" + p.value.value else [];
    TargetIs(p.package, d);
    if arg != [] { SignBack(arg[0]); }
    NoSign();
    if c != CHANGE { Signed(arg, rest); }
    Group(CmdPrefix(c), t, v);
  }

  lemma Signed(arg: Text, rest: Text)
    requires arg != [] && rest == arg[1..]
    ensures arg == [arg[0]] + rest
  {
  }

  lemma Group(a: Text, b: Text, c: Text)
    ensures a + (b + c) == a + b + c && [] + (b + c) == b + c
  {
  }

  lemma TargetIs(name: Text, d: Delta)
    ensures Target(name, d) == name + ("." + d.section) + if d.option.Some? then "." + d.option.value else []
  {
  }

  lemma SignBack(ch: char)
    ensures CmdOf(ch) != CHANGE ==> CmdPrefix(CmdOf(ch)) == [ch]
  {
  }

  lemma NoSign()
    ensures CmdPrefix(CHANGE) == []
  {
  }

  lemma NameSigns(name: Text)
    requires ValidStr(name, true, true)
    ensures CmdOf(name[0]) == if name[0] == '-' then REMOVE else CHANGE
  {
  }

  lemma TargetFirst(name: Text, d: Delta)
    requires name != []
    ensures Target(name, d) != [] && Target(name, d)[0] == name[0] && Target(name, d)[1..] == Target(name[1..], d)
  {
  }

  /** What uci_parse_ptr makes of the rest. */
  lemma Misread(name: Text, d: Delta)
    requires GoodDelta(name, d) && d.cmd == CHANGE && name[0] == '-'
    ensures var r := ParsePtr(Arg(name, d)[1..]);
            if name == "-" then r == Err(ParseError) else r == Ok(Back(name[1..], d))
  {
    hide Find, Sep, ValidText, ParsePtr;
    var v := if d.value.Some? then "=" + d.value.value else [];
    TargetFirst(name, d);
    assert Arg(name, d)[1..] == Target(name[1..], d) + v;
    if name != "-" {
      assert ValidStr(name[1..], true, true);
      PtrBack(name[1..], d);
    } else {
      assert name[1..] == [];
      NoPackage(d);
    }
  }

  lemma NoPackage(d: Delta)
    requires ValidName(d.section) && (d.option.Some? ==> ValidName(d.option.value))
    ensures ParsePtr(Target([], d) + if d.value.Some? then "=" + d.value.value else []) == Err(ParseError)
  {
    hide Find, Sep, Plain, NulFree;
    var t := Target([], d);
    var s := t + if d.value.Some? then "=" + d.value.value else [];
    NameChars(d.section, false);
    if d.option.Some? { NameChars(d.option.value, false); }
    TargetSep([], d);
    assert forall k :: 0 <= k < |t| ==> s[k] == t[k];
    FindAt(s, '=', |t|);
    assert s[..|t|] == t;
  }

  method FindCmd(ch: char) returns (cmd: Cmd)
    ensures cmd == CmdOf(ch)
    ensures (cmd == ADD <==> ch == '+') && (cmd == REMOVE <==> ch == '-') && (cmd == RENAME <==> ch == '@')
    ensures (cmd == REORDER <==> ch == '^') && (cmd == LIST_ADD <==> ch == '|') && (cmd == LIST_DEL <==> ch == '~')
  {
    var c := 0;
    while c < |Cmds| && CmdChar(Cmds[c]) != ch
      invariant c <= 7 && forall k :: 0 <= k < c ==> CmdChar(Cmds[k]) != ch
    {
      c := c + 1;
    }
    if c == |Cmds| {
      assert Cmds[0] == ADD && Cmds[1] == REMOVE && Cmds[3] == RENAME;
      assert Cmds[4] == REORDER && Cmds[5] == LIST_ADD && Cmds[6] == LIST_DEL;
      return CHANGE;
    }
    cmd := Cmds[c];
  }

  /** The record `d` of package `name` is ahead in the file. */
  ghost predicate RecordAhead(p: Parser, name: Text, d: Delta, rest: Text)
    reads p
  {
    GoodDelta(name, d) && p.Clean() && p.Line() != [] && p.Unread() == SaveText(name, d) + rest
  }

  /** `uci_parse_delta_tuple`: one argument makes up the record. */
  method ParseTuple(p: Parser, ghost name: Text, ghost d: Delta, ghost rest: Text) returns (r: Result<(Cmd, Ptr)>)
    requires p.pos <= |p.buf|
    modifies p
    ensures old(RecordAhead(p, name, d, rest)) ==>
      r == Tuple(Arg(name, d)) && p.Clean() && p.Line() == [] && p.Unread() == rest
  {
    hide Parser.Clean, Parser.Line, Parser.Unread, GoodDelta, SaveText, ParsePtr, Parser.Expecting, NulFree, ValidStr,
         CStr, CmdOf;
    ghost var hint, v := RecordAhead(p, name, d, rest), Arg(name, d);
    if hint { RecordArg(p, name, d, rest); }
    var ok, val := p.NextArg(false, false, false, [], v, ArgMode(name, d), "\n" + rest);
    if !ok { return Err(ParseError); }
    if hint {
      assert ("\n" + rest)[1..] == rest;
      p.Next();
      StrIs(p.buf, val, v);
    }
    if p.Char(p.pos) != NUL { return Err(Invalid); }
    var arg := CStr(p.buf, val);
    var c := FindCmd(if arg == [] then NUL else arg[0]);
    EmptyCmd();
    var q := ParsePtr(if c != CHANGE then arg[1..] else arg);
    if q.Err? { return Err(q.error); }
    var ptr := q.value;
    if ptr.section.None? || ptr.extended || (c != REMOVE && ptr.value.None?) { return Err(Invalid); }
    match c {
      case REORDER => if ptr.value.None? || ptr.option.Some? { return Err(Invalid); }
      case RENAME => if ptr.value.None? || !ValidName(ptr.value.value) { return Err(Invalid); }
      case LIST_ADD => if ptr.option.None? { return Err(Invalid); }
      case LIST_DEL => if ptr.option.None? { return Err(Invalid); }
      case _ =>
    }
    r := Ok((c, ptr));
  }

  lemma EmptyCmd()
    ensures CmdOf(NUL) == CHANGE
  {
  }

  /** A record is bare up to its value, which is quoted. */
  function ArgMode(name: Text, d: Delta): Mode {
    if d.value.Some? then Joined(|CmdPrefix(d.cmd) + Target(name, d)| + 1) else Bare
  }

  lemma PlainCat(a: Text, b: Text)
    requires Plain(b) && (a == [] || Plain(a))
    ensures Plain(a + b)
  {
  }

  lemma TargetPlain(name: Text, d: Delta)
    requires GoodDelta(name, d)
    ensures Plain(CmdPrefix(d.cmd) + Target(name, d)) && (d.value.Some? ==> NulFree(d.value.value))
  {
    hide Plain, ValidStr;
    NameChars(name, true);
    NameChars(d.section, false);
    assert Plain(".") && (d.cmd != CHANGE ==> Plain([CmdChar(d.cmd)])) by { SignsPlain(d.cmd); }
    PlainCat(name, ".");
    PlainCat(name + ".", d.section);
    if d.option.Some? {
      NameChars(d.option.value, false);
      PlainCat(".", d.option.value);
      PlainCat(name + "." + d.section, "." + d.option.value);
    } else {
      assert Target(name, d) == name + "." + d.section;
    }
    PlainCat(CmdPrefix(d.cmd), Target(name, d));
  }

  lemma SignsPlain(c: Cmd)
    ensures Plain(".") && Plain("=") && (c != CHANGE ==> Plain([CmdChar(c)]))
  {
  }

  /** The text of a record is that of one argument. */
  lemma RecordArg(p: Parser, name: Text, d: Delta, rest: Text)
    requires RecordAhead(p, name, d, rest)
    ensures p.Expecting([], Arg(name, d), ArgMode(name, d), "\n" + rest) && NulFree(Arg(name, d))
  {
    hide Parser.Clean, Parser.Line, Parser.Unread, GoodDelta, Quoted, Plain, NulFree;
    TargetPlain(name, d);
    var b, v, m := CmdPrefix(d.cmd) + Target(name, d), Arg(name, d), ArgMode(name, d);
    PlainNul(b);
    if d.value.Some? {
      SignsPlain(ADD);
      PlainCat(b, "=");
      PlainNul(b + "=");
      JoinedText(b, d.value.value, rest);
      assert v == b + "=" + d.value.value;
    } else {
      assert v == b && v[0..] == v;
      assert [] + (v + ("\n" + rest)) == b + "\n" + rest;
    }
  }

  lemma PlainNul(s: Text)
    requires Plain(s)
    ensures NulFree(s) && s != []
  {
  }

  lemma JoinedText(b: Text, value: Text, rest: Text)
    requires Plain(b + "=") && NulFree(b + "=") && NulFree(value)
    ensures var v, k := b + "=" + value, |b| + 1;
            && Fits(v, 0, Joined(k)) && NulFree(v)
            && [] + (Pending(v, 0, Joined(k)) + ("\n" + rest)) == b + ("=" + Quoted(value) + "\n") + rest
  {
    hide Quoted, Plain;
    var v, k := b + "=" + value, |b| + 1;
    assert v[..k] == b + "=" && v[0..k] == v[..k] && v[k..] == value;
  }

  /** Writing a record and reading it back. */
  method SaveThenParse(name: Text, d: Delta) returns (file: Text, r: Result<(Cmd, Ptr)>)
    requires GoodDelta(name, d)
    ensures file == SaveText(name, d)
    ensures r == Ok((d.cmd, Back(name, d))) <==> d.cmd != CHANGE || name[0] != '-'
  {
    hide SaveText, Tuple, Arg, NulFree, LineTail, ValidStr, ValidText, Parser.Clean, Parser.Line, Parser.Unread;
    file := Save(name, d);
    var p := new Parser(file);
    RecordFile(name, d);
    p.NewLine();
    assert SaveText(name, d) + [] == SaveText(name, d);
    r := ParseTuple(p, name, d, []);
    TupleBack(name, d);
  }

  lemma RecordFile(name: Text, d: Delta)
    requires GoodDelta(name, d)
    ensures GoodFile(SaveText(name, d), false) && SaveText(name, d) != []
  {
    hide GoodDelta, Quoted, Plain;
    TargetPlain(name, d);
    PlainNul(CmdPrefix(d.cmd) + Target(name, d));
    if d.value.Some? { QuotedNulFree(d.value.value); }
  }
}
