/** file.c of libuci: writing a package to a file, and reading a file. */
module UciImport {
  import opened UciText
  import opened UciParse
  import opened UciConfig
  import M = UciMeaning

  // ----- the text of statements

  function Command(s: Stmt): Text
    requires !s.Blank?
  {
    match s
    case PackageStmt(_) => "package"
    case ConfigStmt(_, _) => "config"
    case OptionStmt(list, _, _) => if list then "list" else "option"
  }

  /** A command word, or its first letter. */
  predicate Means(word: Text, s: Stmt)
    requires !s.Blank?
  {
    word == Command(s) || word == Command(s)[..1]
  }

  lemma MeansOne(word: Text, s: Stmt)
    requires !s.Blank? && Means(word, s)
    ensures match s
            case PackageStmt(_) => word == "p" || word == "package"
            case ConfigStmt(_, _) => word == "c" || word == "config"
            case OptionStmt(list, _, _) =>
              if list then word == "l" || word == "list" else word == "o" || word == "option"
  {
  }

  function Args(s: Stmt): Text
    requires !s.Blank?
  {
    match s
    case PackageStmt(name) => name + "\n"
    case ConfigStmt(typ, name) => typ + (" " + (Quoted(name) + "\n"))
    case OptionStmt(_, name, value) => name + (" " + (Quoted(value) + "\n"))
  }

  function Indent(s: Stmt): Text { if s.OptionStmt? then "\t" else [] }

  function StmtText(s: Stmt): Text { if s.Blank? then "\n" else Indent(s) + (Command(s) + " " + Args(s)) }

  function TextOf(ss: seq<Stmt>): Text { if ss == [] then [] else StmtText(ss[0]) + TextOf(ss[1..]) }

  /** The text of a statement, word by word. */
  lemma StmtTextIs(s: Stmt)
    ensures StmtText(s) ==
            match s
            case Blank => "\n"
            case PackageStmt(name) => "package " + name + "\n"
            case ConfigStmt(typ, name) => "config " + typ + " '" + Escaped(name) + "'\n"
            case OptionStmt(list, name, value) =>
              (if list then "\tlist " else "\toption ") + name + " '" + Escaped(value) + "'\n"
  {
    hide Escaped;
    match s
    case Blank =>
    case PackageStmt(name) =>
      assert [] + ("package" + " " + (name + "\n")) == "package " + name + "\n";
    case ConfigStmt(typ, name) =>
      var e := Escaped(name);
      assert [] + ("config" + " " + (typ + (" " + (("'" + e + "'") + "\n")))) == "config " + typ + " '" + e + "'\n";
    case OptionStmt(list, name, value) =>
      var e := Escaped(value);
      if list {
        assert "\t" + ("list" + " " + (name + (" " + (("'" + e + "'") + "\n")))) == "\tlist " + name + " '" + e + "'\n";
      } else {
        assert "\t" + ("option" + " " + (name + (" " + (("'" + e + "'") + "\n")))) ==
               "\toption " + name + " '" + e + "'\n";
      }
  }

  /** Statements that are read back as they were written. */
  predicate GoodStmt(s: Stmt) {
    match s
    case Blank => true
    case PackageStmt(name) => ValidStr(name, true, true)
    case ConfigStmt(typ, name) => Plain(typ) && ValidName(name)
    case OptionStmt(_, name, value) => ValidName(name) && NulFree(value)
  }

  lemma NamePlain(name: Text, package: bool)
    requires ValidStr(name, true, package)
    ensures Plain(name) && NulFree(name) && Fits(name, 0, Bare) && Fits(name, 0, Quote)
  {
  }

  lemma PlainFits(s: Text)
    requires Plain(s)
    ensures NulFree(s) && Fits(s, 0, Bare) && ValidType(s)
  {
  }

  class Importer {
    const p: Parser
    const strict: bool
    var conf: Conf

    constructor (file: Text, root: seq<Package>, name: Maybe<Text>, strict: bool)
      ensures fresh(p) && p.buf == [] && p.pos == 0 && p.input == file && !p.eof
      ensures this.strict == strict && conf == Fresh(root, name)
    {
      p := new Parser(file);
      this.strict, conf := strict, Fresh(root, name);
    }

    /** `assert_eol`. */
    method AssertEol() returns (ok: bool)
      requires p.pos <= |p.buf|
      modifies p
      ensures old(p.pos) <= p.pos <= |p.buf| && p.buf[..old(p.pos)] == old(p.buf)[..old(p.pos)]
      ensures |p.input| <= |old(p.input)|
      ensures ok ==> |p.input| < |old(p.input)| || |p.buf| - p.pos <= |old(p.buf)| - old(p.pos)
      ensures old(p.Clean()) && old(p.Line()) == [] ==>
        ok && p.buf == old(p.buf) && p.Clean() && p.Line() == [] && p.Unread() == old(p.Unread())
    {
      p.SkipWhitespace([], []);
      ghost var b, n := p.buf, p.pos;
      var val;
      ok, val := p.NextArg(false, false, false, [], [], Done, []);
      Prefix(b, p.buf, old(p.pos), n);
      if ok && p.Char(val) != NUL && strict { ok := false; }
    }

    /** The statement has been read: the next one starts on the next line. */
    ghost predicate AtEnd(rest: Text)
      reads p
    {
      p.Clean() && p.Line() == [] && p.Unread() == rest
    }

    /** `uci_parse_package` behind the command. */
    method ParsePackage(ghost name: Text, ghost rest: Text) returns (r: Result<Conf>)
      requires p.pos <= |p.buf| && ValidConf(conf)
      modifies p
      ensures p.pos <= |p.buf| && |p.input| <= |old(p.input)|
      ensures r.Ok? ==>
              ValidConf(r.value)
              && (|p.input| < |old(p.input)| || |p.buf| - p.pos <= |old(p.buf)| - old(p.pos))
      ensures old(p.Clean()) && old(p.Line()) != [] && old(p.Unread()) == name + "\n" + rest
              && ValidStr(name, true, true) ==>
        r == SwitchConfig(conf, Some(name)) && AtEnd(rest)
    {
      hide Parser.Clean, Parser.Line, Parser.Unread, Parser.Expecting, SwitchConfig, Plain, ValidStr, NulFree, CStr;
      ghost var hint := p.Clean() && p.Line() != [] && p.Unread() == name + "\n" + rest && ValidStr(name, true, true);
      if hint {
        NamePlain(name, true);
        OneArg(p, name, rest);
        assert ("\n" + rest)[1..] == rest;
      }
      var ok, val := p.NextArg(true, true, true, [], name, Bare, "\n" + rest);
      if !ok { return Err(ParseError); }
      ok := AssertEol();
      if !ok { return Err(ParseError); }
      if hint { StrIs(p.buf, val, name); }
      r := SwitchConfig(conf, Some(CStr(p.buf, val)));
    }

    /** Two arguments, the second one in quotes, and the end of the line. */
    ghost predicate TwoAhead(v1: Text, v2: Text, rest: Text)
      reads p
    {
      && p.Clean() && p.Line() != [] && p.Unread() == v1 + (" " + (Quoted(v2) + "\n")) + rest
      && Plain(v1) && NulFree(v1) && NulFree(v2)
    }

    method TwoArgs(name1: bool, name2: bool, ghost v1: Text, ghost v2: Text, ghost rest: Text)
        returns (ok: bool, val: nat, val2: nat)
      requires p.pos <= |p.buf|
      modifies p
      ensures p.pos <= |p.buf| && |p.input| <= |old(p.input)|
      ensures ok ==> |p.input| < |old(p.input)| || |p.buf| - p.pos <= |old(p.buf)| - old(p.pos)
      ensures old(TwoAhead(v1, v2, rest)) && (name1 ==> ValidName(v1)) && (name2 ==> ValidName(v2)) ==>
        ok && CStr(p.buf, val) == v1 && CStr(p.buf, val2) == v2 && AtEnd(rest)
    {
      hide Parser.Clean, Parser.Line, Parser.Unread, Parser.Expecting, Quoted, Plain, ValidStr, NulFree, CStr;
      ghost var hint := TwoAhead(v1, v2, rest) && (name1 ==> ValidName(v1)) && (name2 ==> ValidName(v2));
      ghost var tail := " " + (Quoted(v2) + ("\n" + rest));
      if hint { FirstArg(p, v1, v2, rest, tail); }
      val2 := 0;
      ok, val := p.NextArg(true, name1, false, [], v1, Bare, tail);
      if !ok { return; }
      if hint { SecondArg(p, v2, rest, tail); }
      ghost var b, n := p.buf, p.pos;
      ok, val2 := p.NextArg(false, name2, false, [], v2, Quote, "\n" + rest);
      if !ok { return; }
      if hint {
        Prefix(b, p.buf, val, n);
        KeepArg(b, p.buf, n, val, v1);
        StrIs(p.buf, val2, v2);
        assert ("\n" + rest)[1..] == rest;
      }
      ok := AssertEol();
    }

    /** `uci_parse_config` behind the command. The package it may bring stays even if the
        rest of the line is wrong. */
    method ParseConfig(ghost typ: Text, ghost name: Text, ghost rest: Text) returns (r: Result<Conf>)
      requires p.pos <= |p.buf| && ValidConf(conf)
      modifies p, `conf
      ensures p.pos <= |p.buf| && |p.input| <= |old(p.input)|
      ensures ValidConf(conf)
      ensures r.Ok? ==>
              ValidConf(r.value)
              && (|p.input| < |old(p.input)| || |p.buf| - p.pos <= |old(p.buf)| - old(p.pos))
      ensures old(TwoAhead(typ, name, rest)) && GoodStmt(ConfigStmt(typ, name)) ==>
        r == Apply(old(conf), ConfigStmt(typ, name), strict) && (r.Ok? ==> AtEnd(rest))
    {
      hide NeedPackage, OpenSection, Quoted, Plain, ValidStr, NulFree, TwoAhead;
      var c := NeedPackage(conf);
      if c.Err? { return c; }
      conf := c.value;
      var ok, val, val2 := TwoArgs(false, true, typ, name, rest);
      if !ok { return Err(ParseError); }
      var t := CStr(p.buf, val);
      if Plain(typ) { PlainFits(typ); }
      ok := ValidateStr(t, false, false);
      if !ok { return Err(ParseError); }
      r := OpenSection(conf, t, CStr(p.buf, val2), strict);
    }

    /** `uci_parse_option` behind the command. */
    method ParseOption(list: bool, ghost name: Text, ghost value: Text, ghost rest: Text) returns (r: Result<Conf>)
      requires p.pos <= |p.buf| && ValidConf(conf)
      modifies p
      ensures p.pos <= |p.buf| && |p.input| <= |old(p.input)|
      ensures r.Ok? ==>
              ValidConf(r.value)
              && (|p.input| < |old(p.input)| || |p.buf| - p.pos <= |old(p.buf)| - old(p.pos))
      ensures old(TwoAhead(name, value, rest)) && GoodStmt(OptionStmt(list, name, value)) ==>
        r == Apply(conf, OptionStmt(list, name, value), strict) && (r.Ok? ==> AtEnd(rest))
    {
      hide Quoted, ValidStr, NulFree, TwoAhead, PutOption;
      if conf.cur.None? { return Err(ParseError); }
      var ok, val, val2 := TwoArgs(true, false, name, value, rest);
      if !ok { return Err(ParseError); }
      r := Ok(PutOption(conf, list, CStr(p.buf, val), CStr(p.buf, val2)));
    }

    /** The reader is behind the command of a statement. */
    ghost predicate ArgsAhead(s: Stmt, rest: Text)
      reads p
    {
      !s.Blank? && GoodStmt(s) && p.Clean() && p.Line() != [] && p.Unread() == Args(s) + rest
    }

    /** The commands of `uci_parse_line`. */
    method Dispatch(word: Text, ghost s: Stmt, ghost rest: Text) returns (r: Result<Conf>)
      requires p.pos <= |p.buf| && ValidConf(conf)
      modifies p, `conf
      ensures ValidConf(conf) && p.pos <= |p.buf| && |p.input| <= |old(p.input)|
      ensures r.Ok? ==>
              ValidConf(r.value)
              && (|p.input| < |old(p.input)| || |p.buf| - p.pos <= |old(p.buf)| - old(p.pos))
      ensures old(ArgsAhead(s, rest)) && Means(word, s) ==> r == Apply(old(conf), s, strict) && (r.Ok? ==> AtEnd(rest))
    {
      hide Parser.Clean, Parser.Line, Parser.Unread, Quoted, Apply, AtEnd;
      ghost var hint := ArgsAhead(s, rest) && Means(word, s);
      if hint {
        GoodArgs(s);
        MeansOne(word, s);
      }
      if word == "p" || word == "package" {
        r := ParsePackage(if s.PackageStmt? then s.name else [], rest);
        if hint { ApplyPackage(old(conf), s, strict); }
      } else if word == "c" || word == "config" {
        r := ParseConfig(if s.ConfigStmt? then s.typ else [], if s.ConfigStmt? then s.name else [], rest);
      } else if word == "o" || word == "option" {
        r := ParseOption(false, if s.OptionStmt? then s.name else [], if s.OptionStmt? then s.value else [], rest);
      } else if word == "l" || word == "list" {
        r := ParseOption(true, if s.OptionStmt? then s.name else [], if s.OptionStmt? then s.value else [], rest);
      } else {
        r := Err(ParseError);
      }
    }

    /** A whole statement is ahead, and what it does works out. */
    ghost predicate StmtAhead(s: Stmt, rest: Text)
      reads this, p
    {
      && GoodStmt(s) && p.Clean() && p.Line() != [] && p.Unread() == StmtText(s) + rest
      && ValidConf(conf) && Apply(conf, s, strict).Ok?
    }

    /** `uci_parse_line`: all the statements of a line, up to an error. */
    method ParseLine(ghost s: Stmt, ghost rest: Text) returns (err: Maybe<Error>)
      requires p.pos <= |p.buf| && ValidConf(conf)
      modifies this, p
      ensures ValidConf(conf) && |p.input| <= |old(p.input)|
      ensures old(StmtAhead(s, rest)) ==> err == None && conf == Apply(old(conf), s, strict).value && AtEnd(rest)
    {
      hide Parser.Clean, Parser.Line, Parser.Unread, Quoted, Apply, ValidConf, GoodStmt, Args, ArgsAhead;
      ghost var hint, c := StmtAhead(s, rest), conf;
      ghost var done := s.Blank?;
      ghost var kw, more := [], [];
      if hint {
        StmtParts(s, rest);
        if !s.Blank? {
          kw, more := Command(s), Args(s) + rest;
        } else {
          ApplyBlank(conf, strict);
        }
      }
      p.SkipWhitespace(Indent(s), kw + " " + more);
      while true
        invariant p.pos <= |p.buf| && ValidConf(conf) && |p.input| <= |old(p.input)|
        invariant hint && done ==> AtEnd(rest) && conf == Apply(c, s, strict).value
        invariant hint && !done ==>
                  !s.Blank? && p.Clean() && p.Line() != [] && p.Unread() == kw + " " + more
                  && conf == c
        decreases |p.input|, |p.buf| - p.pos
      {
        var found, word := p.Word(kw, more);
        if !found { return None; }
        if word != [] && word[0] == '#' { return None; }
        if hint && !done { ArgsComing(this, s, rest); }
        var r := Dispatch(word, s, rest);
        if r.Err? { return Some(r.error); }
        conf := r.value;
        done := true;
      }
    }

    /** The statements `ss` are ahead, and running them gives `c`. */
    ghost predicate Ahead(ss: seq<Stmt>, c: Conf)
      reads this, p
    {
      && GoodFile(p.input, p.eof) && p.input == TextOf(ss) && AllGood(ss)
      && ValidConf(conf) && Run(conf, ss, strict) == Ok(c)
    }

    /** One turn of the loop of `uci_import`. */
    method NextLine(ghost ss: seq<Stmt>, ghost c: Conf) returns (err: Maybe<Error>)
      requires ValidConf(conf)
      modifies this, p
      ensures ValidConf(conf) && |p.input| <= |old(p.input)|
      ensures old(p.input) == [] ==> p.eof
      ensures old(p.input) != [] ==> |p.input| < |old(p.input)|
      ensures old(Ahead(ss, c)) && ss != [] ==> err == None && Ahead(ss[1..], c)
      ensures old(Ahead(ss, c)) && ss == [] ==> err == None && conf == c && p.eof
    {
      hide Parser.Line, Parser.Unread, StmtText, Apply, ValidConf, GoodStmt, LineLen;
      ghost var hint := Ahead(ss, c);
      ghost var s, rest := Blank, [];
      if hint && ss != [] {
        s, rest := ss[0], TextOf(ss[1..]);
        StmtNonempty(ss);
      }
      p.pos := 0;
      p.NewLine();
      if hint && ss != [] { RunFirst(conf, ss, strict); }
      if p.Char(0) == NUL { return None; }
      err := ParseLine(s, rest);
      if hint && ss != [] { EndInput(this, rest); }
    }
  }

  predicate AllGood(ss: seq<Stmt>) { forall i :: 0 <= i < |ss| ==> GoodStmt(ss[i]) }

  lemma RunFirst(c: Conf, ss: seq<Stmt>, strict: bool)
    requires ValidConf(c) && ss != [] && Run(c, ss, strict).Ok?
    ensures Apply(c, ss[0], strict).Ok? && Run(c, ss, strict) == Run(Apply(c, ss[0], strict).value, ss[1..], strict)
  {
  }

  lemma StmtNonempty(ss: seq<Stmt>)
    requires ss != [] && AllGood(ss)
    ensures TextOf(ss) == StmtText(ss[0]) + TextOf(ss[1..]) && StmtText(ss[0]) != [] && GoodStmt(ss[0])
            && AllGood(ss[1..])
  {
    hide GoodStmt, Args;
  }

  lemma EndInput(i: Importer, rest: Text)
    requires i.AtEnd(rest)
    ensures i.p.input == rest && GoodFile(i.p.input, i.p.eof)
  {
  }

  /** `uci_import` of a whole file, of a package `name` unless the file says so itself.
      Outside strict mode, a line with an error is dropped. */
  method Import(file: Text, root: seq<Package>, name: Maybe<Text>, strict: bool, ghost ss: seq<Stmt>)
      returns (r: Result<(Maybe<Package>, Conf)>)
    ensures name.Some? && !ValidPackage(name.value) ==> r == Err(Invalid)
    ensures (name.Some? ==> ValidPackage(name.value)) && file == TextOf(ss) && AllGood(ss)
            && Run(Fresh(root, name), ss, strict).Ok? ==>
      r == Finish(Run(Fresh(root, name), ss, strict).value, name)
    ensures name.Some? && ValidPackage(name.value) && file == TextOf(ss) && AllGood(ss) && M.OnePackage(ss)
            && !Loaded(root, name.value) && M.Allowed(ss, strict) ==>
      r.Ok? && r.value.0.Some?
      && var p := r.value.0.value; p.name == name.value && M.Says(p, ss) && r.value.1.root == root + [p]
  {
    hide Run, ValidConf, Finish, AllGood, TextOf, ValidStr, NulFree, Loaded, M.Says, M.Allowed, M.OnePackage;
    if name.Some? && M.OnePackage(ss) && !Loaded(root, name.value) && M.Allowed(ss, strict) {
      M.FinishSays(root, name.value, ss, strict);
    }
    if name.Some? {
      var ok := ValidateStr(name.value, false, true);
      if !ok { return Err(Invalid); }
    }
    var i := new Importer(file, root, name, strict);
    FreshValid(root, name);
    ghost var run := Run(i.conf, ss, strict);
    ghost var hint := file == TextOf(ss) && AllGood(ss) && run.Ok?;
    if hint { TextGood(ss); }
    ghost var k := 0;
    assert ss[0..] == ss;
    while !i.p.eof
      invariant ValidConf(i.conf) && i.strict == strict && fresh(i) && fresh(i.p)
      invariant k <= |ss|
      invariant hint ==> if i.p.eof then i.conf == run.value else i.Ahead(ss[k..], run.value)
      decreases !i.p.eof, |i.p.input|
    {
      var err := i.NextLine(ss[k..], if run.Ok? then run.value else i.conf);
      if err.Some? && (err.value != ParseError || strict) { return Err(err.value); }
      if hint && k < |ss| { assert ss[k..][1..] == ss[k + 1..]; }
      k := if k < |ss| then k + 1 else k;
    }
    r := Finish(i.conf, name);
  }

  lemma FreshValid(root: seq<Package>, name: Maybe<Text>)
    ensures ValidConf(Fresh(root, name))
  {
  }

  lemma ArgsComing(i: Importer, s: Stmt, rest: Text)
    requires !s.Blank? && GoodStmt(s) && i.p.Clean() && i.p.Unread() == Args(s) + rest
             && (Args(s) + rest != [] ==> i.p.Line() != [])
    ensures i.ArgsAhead(s, rest)
  {
    hide Quoted;
  }

  lemma ApplyBlank(c: Conf, strict: bool)
    requires ValidConf(c)
    ensures Apply(c, Blank, strict) == Ok(c)
  {
  }

  /** A statement starts with its indentation and its command. */
  lemma StmtParts(s: Stmt, rest: Text)
    ensures s.Blank? ==> StmtText(s) + rest == "\n" + rest && ("\n" + rest)[1..] == rest
    ensures !s.Blank? ==>
            StmtText(s) + rest == Indent(s) + (Command(s) + " " + (Args(s) + rest))
            && Letters(Command(s)) && Command(s)[0] != '#'
    ensures !s.Blank? ==> !IsSpace((Command(s) + " " + (Args(s) + rest))[0]) && UciParse.Blank(Indent(s))
  {
    hide Args;
    if !s.Blank? {
      var i, c, a := Indent(s), Command(s), Args(s);
      assert i + (c + " " + a) + rest == i + (c + " " + (a + rest));
    }
  }

  lemma GoodArgs(s: Stmt)
    requires GoodStmt(s) && !s.Blank?
    ensures match s
            case PackageStmt(name) => Plain(name)
            case ConfigStmt(typ, name) => Plain(typ) && NulFree(typ) && NulFree(name)
            case OptionStmt(_, name, value) => Plain(name) && NulFree(name) && NulFree(value)
  {
    match s
    case PackageStmt(name) => NamePlain(name, true);
    case ConfigStmt(typ, name) => NamePlain(name, false); PlainFits(typ);
    case OptionStmt(_, name, value) => NamePlain(name, false);
  }

  lemma ApplyPackage(c: Conf, s: Stmt, strict: bool)
    requires ValidConf(c) && s.PackageStmt?
    ensures Apply(c, s, strict) == SwitchConfig(c, Some(s.name))
  {
  }

  lemma OneArg(p: Parser, name: Text, rest: Text)
    requires p.Clean() && p.Line() != [] && p.Unread() == name + "\n" + rest && Plain(name) && NulFree(name)
    ensures p.Expecting([], name, Bare, "\n" + rest) && name != []
  {
    hide NulFree;
    assert name[0..] == name;
    assert [] + (name + ("\n" + rest)) == name + "\n" + rest;
  }

  lemma FirstArg(p: Parser, v1: Text, v2: Text, rest: Text, tail: Text)
    requires p.Clean() && p.Line() != [] && p.Unread() == v1 + (" " + (Quoted(v2) + "\n")) + rest && Plain(v1)
             && NulFree(v1)
    requires tail == " " + (Quoted(v2) + ("\n" + rest))
    ensures p.Expecting([], v1, Bare, tail) && v1 != []
  {
    hide Quoted, NulFree;
    assert v1[0..] == v1;
    assert [] + (v1 + tail) == v1 + (" " + (Quoted(v2) + "\n")) + rest;
  }

  lemma SecondArg(p: Parser, v2: Text, rest: Text, tail: Text)
    requires p.Past(tail) && tail == " " + (Quoted(v2) + ("\n" + rest)) && NulFree(v2)
    ensures p.Expecting([], v2, Quote, "\n" + rest)
  {
    hide NulFree;
    assert v2[0..] == v2;
    assert tail[1..] == Quoted(v2) + ("\n" + rest);
    assert [] + (Quoted(v2) + ("\n" + rest)) == Quoted(v2) + ("\n" + rest);
  }

  /** An argument stays where it is while more are read behind it. */
  lemma KeepArg(b: Text, b': Text, n: nat, val: nat, v: Text)
    requires val + |v| < n <= |b| && n <= |b'| && b[..n] == b'[..n] && NulFree(v)
    requires b[val..val + |v|] == v && b[val + |v|] == NUL
    ensures CStr(b', val) == v
  {
    assert b'[val..val + |v|] == b'[..n][val..val + |v|] == b[..n][val..val + |v|] == b[val..val + |v|];
    assert b'[val + |v|] == b'[..n][val + |v|] == b[..n][val + |v|];
    StrIs(b', val, v);
  }

  // ----- the text of a package

  /** Text that ends with a newline and has no NULs. */
  predicate GoodLine(s: Text) { s != [] && NulFree(s) && s[|s| - 1] == '\n' }

  lemma LineCat(a: Text, b: Text)
    requires NulFree(a) && GoodLine(b)
    ensures GoodLine(a + b)
  {
  }

  lemma LineEnd(a: Text)
    requires NulFree(a)
    ensures GoodLine(a + "\n") && NulFree(a + " ") && NulFree(" ") && NulFree("\t") && NulFree([])
  {
  }

  lemma StmtGood(s: Stmt)
    requires GoodStmt(s)
    ensures GoodLine(StmtText(s))
  {
    hide Quoted, GoodLine, Args;
    if s.Blank? {
      LineEnd([]);
      assert [] + "\n" == "\n";
    } else {
      ArgsGood(s);
      LettersGood(s);
      LineEnd(Command(s));
      LineCat(Command(s) + " ", Args(s));
      LineCat(Indent(s), Command(s) + " " + Args(s));
    }
  }

  lemma LettersGood(s: Stmt)
    requires !s.Blank?
    ensures NulFree(Command(s))
  {
  }

  lemma ArgsGood(s: Stmt)
    requires GoodStmt(s) && !s.Blank?
    ensures GoodLine(Args(s))
  {
    hide Quoted, GoodLine, NulFree;
    GoodArgs(s);
    match s
    case PackageStmt(name) => NamePlain(name, true); LineEnd(name);
    case ConfigStmt(typ, name) => QuotedNulFree(name); PairGood(typ, Quoted(name));
    case OptionStmt(_, name, value) => QuotedNulFree(value); PairGood(name, Quoted(value));
  }

  lemma PairGood(a: Text, q: Text)
    requires NulFree(a) && NulFree(q)
    ensures GoodLine(a + (" " + (q + "\n")))
  {
    hide GoodLine, NulFree;
    LineEnd(q);
    LineCat(" ", q + "\n");
    LineCat(a, " " + (q + "\n"));
  }

  lemma {:induction false} TextGood(ss: seq<Stmt>)
    requires AllGood(ss)
    ensures GoodFile(TextOf(ss), false)
  {
    hide StmtText, GoodStmt;
    if ss != [] {
      StmtGood(ss[0]);
      TextGood(ss[1..]);
      var a, b := StmtText(ss[0]), TextOf(ss[1..]);
      assert (a + b)[|a + b| - 1] == if b == [] then a[|a| - 1] else b[|b| - 1];
    }
  }

  // ----- writing

  /** What `uci_export_package` writes for a statement. A section without a name is
      written without one. */
  function Printed(s: Stmt): Text {
    match s
    case Blank => "\n"
    case PackageStmt(name) => "package" + " " + (Escaped(name) + "\n")
    case ConfigStmt(typ, name) =>
      "config" + " " + (Escaped(typ) + if name == [] then "\n" else " " + (Quoted(name) + "\n"))
    case OptionStmt(list, name, value) =>
      "\t" + ((if list then "list" else "option") + " " + (Escaped(name) + (" " + (Quoted(value) + "\n"))))
  }

  function PrintedAll(ss: seq<Stmt>): Text { if ss == [] then [] else Printed(ss[0]) + PrintedAll(ss[1..]) }

  lemma {:induction false} PrintedCat(a: seq<Stmt>, b: seq<Stmt>)
    ensures PrintedAll(a + b) == PrintedAll(a) + PrintedAll(b)
    decreases |a|
  {
    hide Printed;
    if a == [] {
      assert a + b == b;
    } else {
      assert (a + b)[1..] == a[1..] + b;
      PrintedCat(a[1..], b);
    }
  }

  lemma PrintedOne(s: Stmt)
    ensures PrintedAll([s]) == Printed(s)
  {
    hide Printed;
    assert [s][1..] == [];
  }

  /** The name of an anonymous section is left out unless asked for. */
  function Shown(s: Section, exportName: bool): Section { if s.anonymous && !exportName then s.(name := []) else s }

  function AllShown(ss: seq<Section>, exportName: bool): (r: seq<Section>)
    ensures |r| == |ss| && forall i :: 0 <= i < |r| ==> r[i] == Shown(ss[i], exportName)
  {
    seq(|ss|, i requires 0 <= i < |ss| => Shown(ss[i], exportName))
  }

  function ExportStmts(p: Package, header: bool, exportName: bool): seq<Stmt> {
    PackageStmts(p.(sections := AllShown(p.sections, exportName)), header)
  }

  /** What fprintf sees of `uci_escape`, with a context that has no buffer yet. */
  method InQuotes(s: Text) returns (e: Text)
    ensures e == Escaped(s)
  {
    var first := new char[32];
    var buf, n := Escape(s, first);
    e := buf[..n];
  }

  method PrintStmt(s: Stmt) returns (out: Text)
    ensures out == Printed(s)
  {
    hide Escaped;
    match s
    case Blank =>
      out := "\n";
    case PackageStmt(name) =>
      var e := InQuotes(name);
      out := "package" + " " + (e + "\n");
    case ConfigStmt(typ, name) =>
      var e := InQuotes(typ);
      if name == [] {
        out := "config" + " " + (e + "\n");
      } else {
        var n := InQuotes(name);
        out := "config" + " " + (e + (" " + (("'" + n + "'") + "\n")));
      }
    case OptionStmt(list, name, value) =>
      var e := InQuotes(name);
      var v := InQuotes(value);
      out := "\t" + ((if list then "list" else "option") + " " + (e + (" " + (("'" + v + "'") + "\n"))));
  }

  /** The options of a section. */
  method ExportOptions(os: seq<Option>) returns (out: Text)
    ensures out == PrintedAll(AllOptionStmts(os))
  {
    hide Printed, PrintedAll;
    out := [];
    EmptyText();
    var i := 0;
    while i < |os|
      invariant i <= |os| && out == PrintedAll(AllOptionStmts(os[..i]))
    {
      var t := ExportOption(os[i]);
      assert os[..i + 1][..i] == os[..i];
      PrintedCat(AllOptionStmts(os[..i]), OptionStmts(os[i]));
      out := out + t;
      i := i + 1;
    }
    assert os[..i] == os;
  }

  lemma EmptyText()
    ensures PrintedAll([]) == []
  {
  }

  method ExportOption(o: Option) returns (out: Text)
    ensures out == PrintedAll(OptionStmts(o))
  {
    hide Printed, PrintedAll;
    match o
    case Str(name, value) =>
      PrintedOne(OptionStmt(false, name, value));
      out := PrintStmt(OptionStmt(false, name, value));
    case Lst(name, items) =>
      out := [];
      EmptyText();
      var i := 0;
      while i < |items|
        invariant i <= |items| && out == PrintedAll(ItemStmts(name, items[..i]))
      {
        var s := OptionStmt(true, name, items[i]);
        var t := PrintStmt(s);
        PrintedOne(s);
        assert items[..i + 1][..i] == items[..i];
        PrintedCat(ItemStmts(name, items[..i]), [s]);
        out := out + t;
        i := i + 1;
      }
      assert items[..i] == items;
  }

  // ----- the text of a package, line by line

  function OptionLine(list: bool, name: Text, value: Text): Text {
    (if list then "\tlist " else "\toption ") + Escaped(name) + " '" + Escaped(value) + "'\n"
  }

  function ItemLines(name: Text, items: seq<Text>): Text {
    if items == [] then [] else ItemLines(name, items[..|items| - 1]) + OptionLine(true, name, items[|items| - 1])
  }

  function OptionLines(os: seq<Option>): Text {
    if os == [] then []
    else
      OptionLines(os[..|os| - 1]) +
      match os[|os| - 1]
      case Str(name, value) => OptionLine(false, name, value)
      case Lst(name, items) => ItemLines(name, items)
  }

  /** A section without a name, and an anonymous one unless names are asked for, is written
      without its name. */
  function SectionLine(s: Section, exportName: bool): Text {
    if s.name == [] || (s.anonymous && !exportName) then "\nconfig " + Escaped(s.typ) + "\n"
    else "\nconfig " + Escaped(s.typ) + " '" + Escaped(s.name) + "'\n"
  }

  function SectionLines(ss: seq<Section>, exportName: bool): Text {
    if ss == [] then []
    else
      var n := |ss| - 1;
      SectionLines(ss[..n], exportName) + SectionLine(ss[n], exportName) + OptionLines(ss[n].options)
  }

  function FileText(p: Package, header: bool, exportName: bool): Text {
    (if header then "package " + Escaped(p.name) + "\n" else "") + SectionLines(p.sections, exportName) + "\n"
  }

  lemma PrintedLines(s: Stmt)
    ensures match s
            case Blank => Printed(s) == "\n"
            case PackageStmt(name) => Printed(s) == "package " + Escaped(name) + "\n"
            case ConfigStmt(typ, name) =>
              "\n" + Printed(s) == if name == [] then "\nconfig " + Escaped(typ) + "\n"
                                   else "\nconfig " + Escaped(typ) + " '" + Escaped(name) + "'\n"
            case OptionStmt(list, name, value) => Printed(s) == OptionLine(list, name, value)
  {
    hide Escaped;
    match s
    case Blank =>
    case PackageStmt(name) =>
      var e := Escaped(name);
      assert "package" + " " + (e + "\n") == "package " + e + "\n";
    case ConfigStmt(typ, name) =>
      var e, f := Escaped(typ), Escaped(name);
      assert "\n" + ("config" + " " + (e + "\n")) == "\nconfig " + e + "\n";
      assert "\n" + ("config" + " " + (e + (" " + (("'" + f + "'") + "\n")))) == "\nconfig " + e + " '" + f + "'\n";
    case OptionStmt(list, name, value) =>
      var e, f := Escaped(name), Escaped(value);
      if list {
        assert "\t" + ("list" + " " + (e + (" " + (("'" + f + "'") + "\n")))) == "\tlist " + e + " '" + f + "'\n";
      } else {
        assert "\t" + ("option" + " " + (e + (" " + (("'" + f + "'") + "\n")))) == "\toption " + e + " '" + f + "'\n";
      }
  }

  lemma {:induction false} ItemsPrinted(name: Text, items: seq<Text>)
    ensures PrintedAll(ItemStmts(name, items)) == ItemLines(name, items)
    decreases |items|
  {
    hide Printed, OptionLine;
    if items != [] {
      var n := |items| - 1;
      ItemsPrinted(name, items[..n]);
      PrintedCat(ItemStmts(name, items[..n]), [OptionStmt(true, name, items[n])]);
      PrintedOne(OptionStmt(true, name, items[n]));
      PrintedLines(OptionStmt(true, name, items[n]));
    }
  }

  lemma {:induction false} OptionsPrinted(os: seq<Option>)
    ensures PrintedAll(AllOptionStmts(os)) == OptionLines(os)
    decreases |os|
  {
    hide Printed, OptionLine;
    if os != [] {
      var n := |os| - 1;
      OptionsPrinted(os[..n]);
      PrintedCat(AllOptionStmts(os[..n]), OptionStmts(os[n]));
      match os[n] {
        case Str(name, value) =>
          PrintedOne(OptionStmt(false, name, value));
          PrintedLines(OptionStmt(false, name, value));
        case Lst(name, items) =>
          ItemsPrinted(name, items);
      }
    }
  }

  lemma SectionPrinted(s: Section, exportName: bool)
    ensures PrintedAll(SectionStmts(Shown(s, exportName))) == SectionLine(s, exportName) + OptionLines(s.options)
  {
    hide Printed, OptionLines, PrintedAll, AllOptionStmts;
    var t := Shown(s, exportName);
    SectionText(t);
    OptionsPrinted(s.options);
    PrintedLines(ConfigStmt(t.typ, t.name));
    PrintedLines(Blank);
    var c, o := Printed(ConfigStmt(t.typ, t.name)), OptionLines(s.options);
    assert "\n" + (c + o) == "\n" + c + o;
  }

  lemma {:induction false} SectionsPrinted(ss: seq<Section>, exportName: bool)
    ensures PrintedAll(AllSectionStmts(AllShown(ss, exportName))) == SectionLines(ss, exportName)
    decreases |ss|
  {
    hide Printed, SectionLine, OptionLines, PrintedAll, SectionStmts, Shown;
    var ts := AllShown(ss, exportName);
    if ss == [] {
      EmptyText();
      assert ts == [];
    } else {
      var n := |ss| - 1;
      SectionsPrinted(ss[..n], exportName);
      assert ts[..n] == AllShown(ss[..n], exportName);
      SectionPrinted(ss[n], exportName);
      PrintedCat(AllSectionStmts(ts[..n]), SectionStmts(ts[n]));
      var a, b, c := SectionLines(ss[..n], exportName), SectionLine(ss[n], exportName), OptionLines(ss[n].options);
      assert a + (b + c) == a + b + c;
    }
  }

  /** What a package is printed as. */
  lemma ExportIs(p: Package, header: bool, exportName: bool)
    ensures PrintedAll(ExportStmts(p, header, exportName)) == FileText(p, header, exportName)
  {
    hide Printed, PrintedAll, AllSectionStmts, SectionLines, AllShown;
    var head := if header then [PackageStmt(p.name)] else [];
    var body := AllSectionStmts(AllShown(p.sections, exportName));
    SectionsPrinted(p.sections, exportName);
    PrintedCat(head + body, [Blank]);
    PrintedCat(head, body);
    PrintedOne(Blank);
    PrintedLines(Blank);
    EmptyText();
    if header {
      PrintedOne(PackageStmt(p.name));
      PrintedLines(PackageStmt(p.name));
    }
  }

  /** `uci_export_package`. */
  method Export(p: Package, header: bool, exportName: bool) returns (out: Text)
    ensures out == PrintedAll(ExportStmts(p, header, exportName)) == FileText(p, header, exportName)
  {
    hide Printed, PrintedAll, AllOptionStmts, FileText;
    ExportIs(p, header, exportName);
    EmptyText();
    out := [];
    ghost var head := if header then [PackageStmt(p.name)] else [];
    if header {
      PrintedOne(PackageStmt(p.name));
      out := PrintStmt(PackageStmt(p.name));
    }
    var i, ss := 0, AllShown(p.sections, exportName);
    assert ss[..0] == [] && head + AllSectionStmts([]) == head;
    while i < |ss|
      invariant i <= |ss| && out == PrintedAll(head + AllSectionStmts(ss[..i]))
    {
      var s := ss[i];
      var blank := PrintStmt(Blank);
      var line := PrintStmt(ConfigStmt(s.typ, s.name));
      var options := ExportOptions(s.options);
      SectionText(s);
      assert ss[..i + 1][..i] == ss[..i];
      assert head + AllSectionStmts(ss[..i + 1]) == head + AllSectionStmts(ss[..i]) + SectionStmts(s);
      PrintedCat(head + AllSectionStmts(ss[..i]), SectionStmts(s));
      out := out + (blank + (line + options));
      i := i + 1;
    }
    assert ss[..i] == ss;
    var last := PrintStmt(Blank);
    PrintedOne(Blank);
    PrintedCat(head + AllSectionStmts(ss), [Blank]);
    out := out + last;
  }

  lemma SectionText(s: Section)
    ensures PrintedAll(SectionStmts(s)) ==
            Printed(Blank) + (Printed(ConfigStmt(s.typ, s.name)) + PrintedAll(AllOptionStmts(s.options)))
  {
    hide Printed, AllOptionStmts;
    var t, c, os := SectionStmts(s), ConfigStmt(s.typ, s.name), AllOptionStmts(s.options);
    assert t[1..] == [c] + os && ([c] + os)[1..] == os;
  }

  // ----- the round trip

  lemma PrintedGood(s: Stmt)
    requires GoodStmt(s)
    ensures Printed(s) == StmtText(s)
  {
    hide Escaped, Quoted;
    match s
    case Blank =>
    case PackageStmt(name) =>
      NamePlain(name, true);
      PlainEscaped(name);
    case ConfigStmt(typ, name) =>
      PlainEscaped(typ);
    case OptionStmt(_, name, value) =>
      NamePlain(name, false);
      PlainEscaped(name);
  }

  lemma {:induction false} PrintedAllGood(ss: seq<Stmt>)
    requires AllGood(ss)
    ensures PrintedAll(ss) == TextOf(ss)
  {
    hide Printed, StmtText, GoodStmt;
    if ss != [] {
      PrintedGood(ss[0]);
      PrintedAllGood(ss[1..]);
    }
  }

  lemma GoodCat(a: seq<Stmt>, b: seq<Stmt>)
    requires AllGood(a) && AllGood(b)
    ensures AllGood(a + b)
  {
  }

  lemma {:induction false} ItemsGood(name: Text, items: seq<Text>)
    requires ValidName(name) && forall i :: 0 <= i < |items| ==> NulFree(items[i])
    ensures AllGood(ItemStmts(name, items))
    decreases |items|
  {
    hide NulFree, ValidStr;
    if items != [] {
      ItemsGood(name, items[..|items| - 1]);
      GoodCat(ItemStmts(name, items[..|items| - 1]), [OptionStmt(true, name, items[|items| - 1])]);
    }
  }

  lemma {:induction false} OptionsGood(os: seq<Option>)
    requires forall i :: 0 <= i < |os| ==> GoodOption(os[i])
    ensures AllGood(AllOptionStmts(os))
    decreases |os|
  {
    hide NulFree, ValidStr, AllGood;
    GoodNothing();
    if os != [] {
      var n := |os| - 1;
      OptionsGood(os[..n]);
      match os[n] {
        case Str(name, value) => OneGood(OptionStmt(false, name, value));
        case Lst(name, items) => ItemsGood(name, items);
      }
      GoodCat(AllOptionStmts(os[..n]), OptionStmts(os[n]));
    }
  }

  lemma GoodNothing()
    ensures AllGood([])
  {
  }

  lemma OneGood(s: Stmt)
    requires GoodStmt(s)
    ensures AllGood([s])
  {
  }

  lemma {:induction false} SectionsGood(ss: seq<Section>)
    requires GoodSections(ss)
    ensures AllGood(AllSectionStmts(ss))
    decreases |ss|
  {
    hide AllGood, NulFree, ValidStr, Plain, GoodOption;
    GoodNothing();
    if ss != [] {
      var n := |ss| - 1;
      var s := ss[n];
      SectionsGood(ss[..n]);
      OptionsGood(s.options);
      OneGood(Blank);
      OneGood(ConfigStmt(s.typ, s.name));
      GoodCat([Blank], [ConfigStmt(s.typ, s.name)]);
      GoodCat([Blank, ConfigStmt(s.typ, s.name)], AllOptionStmts(s.options));
      GoodCat(AllSectionStmts(ss[..n]), SectionStmts(s));
    }
  }

  /** The text of a good package consists of statements that are read as written. */
  lemma ExportedGood(p: Package, header: bool, exportName: bool)
    requires Good(p, header)
    ensures ExportStmts(p, header, exportName) == PackageStmts(p, header) && AllGood(PackageStmts(p, header))
    ensures PrintedAll(ExportStmts(p, header, exportName)) == TextOf(PackageStmts(p, header))
  {
    hide AllGood, AllSectionStmts, Printed, TextOf, PrintedAll, ValidStr;
    assert AllShown(p.sections, exportName) == p.sections;
    SectionsGood(p.sections);
    GoodNothing();
    if header { OneGood(PackageStmt(p.name)); }
    OneGood(Blank);
    var head := if header then [PackageStmt(p.name)] else [];
    GoodCat(head, AllSectionStmts(p.sections));
    GoodCat(head + AllSectionStmts(p.sections), [Blank]);
    PrintedAllGood(PackageStmts(p, header));
  }

  /** Importing what was exported: the same sections, options and items in the same order,
      next to the packages loaded before. Only empty options are gone, so that the package
      is the same if and only if it has none. */
  method ExportThenImport(p: Package, header: bool, exportName: bool, root: seq<Package>, strict: bool)
      returns (file: Text, r: Result<(Maybe<Package>, Conf)>)
    requires Good(p, header) && !Loaded(root, p.name)
    ensures file == PrintedAll(ExportStmts(p, header, exportName))
    ensures r.Ok? && r.value.0 == Some(Reread(p)) && r.value.1.root == root + [Reread(p)]
    ensures r.value.0 == Some(p) <==> AllFull(p)
  {
    hide AllGood, PackageStmts, PrintedAll, ExportStmts, TextOf, Run, Finish, GoodSections, ValidStr, Loaded, Reread,
         AllFull;
    file := Export(p, header, exportName);
    ExportedGood(p, header, exportName);
    Rebuild(root, p, header, strict);
    RereadSame(p);
    r := Import(file, root, if header then None else Some(p.name), strict, PackageStmts(p, header));
  }
}
