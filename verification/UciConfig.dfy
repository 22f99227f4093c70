/** list.h and file.c of libuci: packages, and what the statements of a file do. */
module UciConfig {
  import opened UciText

  datatype Maybe<T> = None | Some(value: T)

  datatype Error = ParseError | Duplicate | Invalid

  datatype Result<T> = Ok(value: T) | Err(error: Error)

  datatype Option = Str(name: Text, value: Text) | Lst(name: Text, items: seq<Text>)

  datatype Section = Section(name: Text, typ: Text, anonymous: bool, options: seq<Option>)

  datatype Package = Package(name: Text, sections: seq<Section>)

  /** The packages loaded, the name to use for one without a statement, the package
      and the section that statements go to, and the sections whose type was replaced. */
  datatype Conf = Conf(root: seq<Package>, name: Maybe<Text>, package: Maybe<Package>, cur: Maybe<nat>,
                       retyped: set<nat>)

  predicate ValidConf(c: Conf) { c.cur.Some? ==> c.package.Some? && c.cur.value < |c.package.value.sections| }

  // ----- the lists

  /** `uci_lookup_list`, or the end of the list. */
  function FindSection(ss: seq<Section>, name: Text): (i: nat)
    ensures i <= |ss| && (i < |ss| ==> ss[i].name == name) && forall j :: 0 <= j < i ==> ss[j].name != name
  {
    if ss == [] || ss[0].name == name then 0 else 1 + FindSection(ss[1..], name)
  }

  function FindOption(os: seq<Option>, name: Text): (i: nat)
    ensures i <= |os| && (i < |os| ==> os[i].name == name) && forall j :: 0 <= j < i ==> os[j].name != name
  {
    if os == [] || os[0].name == name then 0 else 1 + FindOption(os[1..], name)
  }

  lemma {:induction false} NoSection(ss: seq<Section>, name: Text)
    requires forall i :: 0 <= i < |ss| ==> ss[i].name != name
    ensures FindSection(ss, name) == |ss|
  {
    if ss != [] { NoSection(ss[1..], name); }
  }

  lemma {:induction false} NoOption(os: seq<Option>, name: Text)
    requires forall i :: 0 <= i < |os| ==> os[i].name != name
    ensures FindOption(os, name) == |os|
  {
    if os != [] { NoOption(os[1..], name); }
  }

  lemma {:induction false} LastOption(os: seq<Option>, o: Option)
    requires forall i :: 0 <= i < |os| ==> os[i].name != o.name
    ensures FindOption(os + [o], o.name) == |os|
  {
    if os != [] {
      assert (os + [o])[1..] == os[1..] + [o];
      LastOption(os[1..], o);
    }
  }

  /** `uci_set` of an option: an empty value is ignored, a new one goes to the end. */
  function SetOption(os: seq<Option>, name: Text, value: Text): seq<Option> {
    var i := FindOption(os, name);
    if value == [] then os
    else if i == |os| then os + [Str(name, value)]
    else if os[i] == Str(name, value) then os
    else os[..i] + os[i + 1..] + [Str(name, value)]
  }

  /** `uci_add_list`: a string that is there already becomes the first item. */
  function AddList(os: seq<Option>, name: Text, value: Text): seq<Option> {
    var i := FindOption(os, name);
    if i == |os| then os + [Lst(name, [value])]
    else match os[i]
         case Lst(_, items) => os[i := Lst(name, items + [value])]
         case Str(_, first) => os[..i] + os[i + 1..] + [Lst(name, [first, value])]
  }

  // ----- the statements

  predicate Loaded(root: seq<Package>, name: Text) { exists i :: 0 <= i < |root| && root[i].name == name }

  /** `uci_switch_config`. */
  function SwitchConfig(c: Conf, name: Maybe<Text>): (r: Result<Conf>)
    ensures r.Ok? ==> ValidConf(r.value)
  {
    var root := if c.package.Some? then c.root + [c.package.value] else c.root;
    var c' := Conf(root, name, None, None, {});
    if name.None? then Ok(c')
    else if Loaded(root, name.value) then Err(Duplicate)
    else Ok(c'.(package := Some(Package(name.value, []))))
  }

  /** The start of `uci_parse_config`: there has to be a package. */
  function NeedPackage(c: Conf): (r: Result<Conf>)
    requires ValidConf(c)
    ensures r.Ok? ==> ValidConf(r.value) && r.value.package.Some?
  {
    if c.package.Some? then Ok(c)
    else if c.name.None? then Err(ParseError)
    else SwitchConfig(c, c.name)
  }

  /** The end of `uci_parse_config`. Replacing the type of a section a second time
      leaves no current section. */
  function OpenSection(c: Conf, typ: Text, name: Text, strict: bool): (r: Result<Conf>)
    requires ValidConf(c) && c.package.Some?
    ensures r.Ok? ==> ValidConf(r.value)
  {
    var p := c.package.value;
    var i := FindSection(p.sections, name);
    if name == [] then
      Ok(c.(package := Some(p.(sections := p.sections + [Section([], typ, true, [])])), cur := Some(|p.sections|)))
    else if i == |p.sections| then
      Ok(c.(package := Some(p.(sections := p.sections + [Section(name, typ, false, [])])), cur := Some(|p.sections|)))
    else if strict && p.sections[i].typ != typ then
      Err(ParseError)
    else
      Ok(c.(package := Some(p.(sections := p.sections[i := p.sections[i].(typ := typ)])),
            cur := if i in c.retyped then None else Some(i), retyped := c.retyped + {i}))
  }

  /** The end of `uci_parse_option`. */
  function PutOption(c: Conf, list: bool, name: Text, value: Text): (r: Conf)
    requires ValidConf(c) && c.cur.Some?
    ensures ValidConf(r)
  {
    var p, i := c.package.value, c.cur.value;
    var s := p.sections[i];
    var os := if list then AddList(s.options, name, value) else SetOption(s.options, name, value);
    c.(package := Some(p.(sections := p.sections[i := s.(options := os)])))
  }

  // ----- what an exported file consists of

  datatype Stmt =
    | Blank
    | PackageStmt(name: Text)
    | ConfigStmt(typ: Text, name: Text)
    | OptionStmt(list: bool, name: Text, value: Text)

  /** The effect of a statement. */
  function Apply(c: Conf, s: Stmt, strict: bool): (r: Result<Conf>)
    requires ValidConf(c)
    ensures r.Ok? ==> ValidConf(r.value)
  {
    match s
    case Blank => Ok(c)
    case PackageStmt(name) => SwitchConfig(c, Some(name))
    case ConfigStmt(typ, name) =>
      var r := NeedPackage(c);
      if r.Err? then r else OpenSection(r.value, typ, name, strict)
    case OptionStmt(list, name, value) => if c.cur.None? then Err(ParseError) else Ok(PutOption(c, list, name, value))
  }

  function Run(c: Conf, ss: seq<Stmt>, strict: bool): (r: Result<Conf>)
    requires ValidConf(c)
    ensures r.Ok? ==> ValidConf(r.value)
    decreases |ss|
  {
    if ss == [] then Ok(c)
    else var r := Apply(c, ss[0], strict); if r.Err? then r else Run(r.value, ss[1..], strict)
  }

  lemma {:induction false} RunCat(c: Conf, a: seq<Stmt>, b: seq<Stmt>, strict: bool)
    requires ValidConf(c)
    ensures Run(c, a + b, strict) == var r := Run(c, a, strict); if r.Err? then r else Run(r.value, b, strict)
    decreases |a|
  {
    hide Apply;
    if a == [] {
      assert a + b == b;
    } else {
      assert (a + b)[1..] == a[1..] + b;
      var r := Apply(c, a[0], strict);
      if r.Ok? { RunCat(r.value, a[1..], b, strict); }
    }
  }

  function ItemStmts(name: Text, items: seq<Text>): (ss: seq<Stmt>)
    ensures |ss| == |items|
  {
    if items == [] then [] else ItemStmts(name, items[..|items| - 1]) + [OptionStmt(true, name, items[|items| - 1])]
  }

  function OptionStmts(o: Option): seq<Stmt> {
    match o
    case Str(name, value) => [OptionStmt(false, name, value)]
    case Lst(name, items) => ItemStmts(name, items)
  }

  function AllOptionStmts(os: seq<Option>): seq<Stmt> {
    if os == [] then [] else AllOptionStmts(os[..|os| - 1]) + OptionStmts(os[|os| - 1])
  }

  function SectionStmts(s: Section): seq<Stmt> { [Blank, ConfigStmt(s.typ, s.name)] + AllOptionStmts(s.options) }

  function AllSectionStmts(ss: seq<Section>): seq<Stmt> {
    if ss == [] then [] else AllSectionStmts(ss[..|ss| - 1]) + SectionStmts(ss[|ss| - 1])
  }

  function PackageStmts(p: Package, header: bool): seq<Stmt> {
    (if header then [PackageStmt(p.name)] else []) + AllSectionStmts(p.sections) + [Blank]
  }

  // ----- which packages survive

  predicate GoodOption(o: Option) {
    && ValidName(o.name)
    && match o
       case Str(_, value) => NulFree(value)
       case Lst(_, items) => forall i :: 0 <= i < |items| ==> NulFree(items[i])
  }

  /** An option that is not empty: uci_set ignores an empty string, and an empty list has
      no lines at all. */
  predicate Full(o: Option) {
    match o
    case Str(_, value) => value != []
    case Lst(_, items) => items != []
  }

  function Survivors(os: seq<Option>): (r: seq<Option>)
    ensures |r| <= |os| && (|r| == |os| <==> forall i :: 0 <= i < |os| ==> Full(os[i]))
    ensures (forall i :: 0 <= i < |os| ==> Full(os[i])) ==> r == os
    ensures forall o :: o in r ==> o in os
  {
    if os == [] then []
    else
      var n := |os| - 1;
      assert os == os[..n] + [os[n]];
      Survivors(os[..n]) + if Full(os[n]) then [os[n]] else []
  }

  function Surviving(s: Section): Section { s.(options := Survivors(s.options)) }

  function AllSurviving(ss: seq<Section>): (r: seq<Section>)
    ensures |r| == |ss| && forall i :: 0 <= i < |r| ==> r[i] == Surviving(ss[i])
  {
    seq(|ss|, i requires 0 <= i < |ss| => Surviving(ss[i]))
  }

  /** What an import makes of an exported package. */
  function Reread(p: Package): Package { p.(sections := AllSurviving(p.sections)) }

  predicate AllFull(p: Package) {
    forall i, j :: 0 <= i < |p.sections| && 0 <= j < |p.sections[i].options| ==> Full(p.sections[i].options[j])
  }

  /** The package comes back as it was if and only if it has no empty option. */
  lemma RereadSame(p: Package)
    ensures Reread(p) == p <==> AllFull(p)
  {
    hide Survivors, Full;
    if Reread(p) == p {
      forall i, j | 0 <= i < |p.sections| && 0 <= j < |p.sections[i].options|
        ensures Full(p.sections[i].options[j])
      {
        assert p.sections[i] == Surviving(p.sections[i]);
        assert |Survivors(p.sections[i].options)| == |p.sections[i].options|;
      }
    }
    if AllFull(p) {
      forall i | 0 <= i < |p.sections|
        ensures Surviving(p.sections[i]) == p.sections[i]
      {
      }
      assert AllSurviving(p.sections) == p.sections;
    }
  }

  predicate GoodSection(s: Section) {
    && !s.anonymous && ValidName(s.name) && Plain(s.typ)
       && (forall i :: 0 <= i < |s.options| ==> GoodOption(s.options[i]))
    && forall i, j :: 0 <= i < j < |s.options| ==> s.options[i].name != s.options[j].name
  }

  predicate GoodSections(ss: seq<Section>) {
    && (forall i :: 0 <= i < |ss| ==> GoodSection(ss[i]))
    && forall i, j :: 0 <= i < j < |ss| ==> ss[i].name != ss[j].name
  }

  /** Named sections with unique names, types that need no quotes, unique option names,
      and any values without NULs. */
  predicate Good(p: Package, header: bool) {
    GoodSections(p.sections) && if header then ValidStr(p.name, true, true) else ValidPackage(p.name)
  }

  // ----- running the statements of a package rebuilds it

  /** A configuration at the end of a section with the options `os`. */
  function At(root: seq<Package>, nm: Maybe<Text>, name: Text, ss: seq<Section>, s: Section, os: seq<Option>): Conf {
    Conf(root, nm, Some(Package(name, ss + [s.(options := os)])), Some(|ss|), {})
  }

  lemma PutAt(root: seq<Package>, nm: Maybe<Text>, name: Text, ss: seq<Section>, s: Section, os: seq<Option>,
              list: bool, o: Text, v: Text, strict: bool)
    ensures var c := At(root, nm, name, ss, s, os);
            var os' := if list then AddList(os, o, v) else SetOption(os, o, v);
            Run(c, [OptionStmt(list, o, v)], strict) == Ok(At(root, nm, name, ss, s, os'))
  {
    hide AddList, SetOption, Run;
    var c := At(root, nm, name, ss, s, os);
    var os' := if list then AddList(os, o, v) else SetOption(os, o, v);
    RunOne(c, OptionStmt(list, o, v), strict);
    assert (ss + [s.(options := os)])[|ss| := s.(options := os')] == ss + [s.(options := os')];
  }

  lemma {:induction false} RunItems(root: seq<Package>, nm: Maybe<Text>, name: Text, ss: seq<Section>, s: Section,
                                    os: seq<Option>,
                                    o: Text, items: seq<Text>, strict: bool)
    requires items != [] && forall i :: 0 <= i < |os| ==> os[i].name != o
    ensures Run(At(root, nm, name, ss, s, os), ItemStmts(o, items), strict) ==
            Ok(At(root, nm, name, ss, s, os + [Lst(o, items)]))
    decreases |items|
  {
    hide FindOption, At, Run;
    var c, n := At(root, nm, name, ss, s, os), |items| - 1;
    AtValid(root, nm, name, ss, s, os);
    var before, last := ItemStmts(o, items[..n]), OptionStmt(true, o, items[n]);
    if n == 0 {
      NoOption(os, o);
      assert before == [] && items == [items[0]] && before + [last] == [last];
      PutAt(root, nm, name, ss, s, os, true, o, items[0], strict);
    } else {
      RunCat(c, before, [last], strict);
      RunItems(root, nm, name, ss, s, os, o, items[..n], strict);
      var os1 := os + [Lst(o, items[..n])];
      LastOption(os, Lst(o, items[..n]));
      assert items[..n] + [items[n]] == items;
      assert os1[|os| := Lst(o, items)] == os + [Lst(o, items)];
      PutAt(root, nm, name, ss, s, os1, true, o, items[n], strict);
    }
  }

  lemma AtValid(root: seq<Package>, nm: Maybe<Text>, name: Text, ss: seq<Section>, s: Section, os: seq<Option>)
    ensures ValidConf(At(root, nm, name, ss, s, os))
  {
  }

  lemma RunOption(root: seq<Package>, nm: Maybe<Text>, name: Text, ss: seq<Section>, s: Section, os: seq<Option>,
                  o: Option, strict: bool)
    requires GoodOption(o) && forall i :: 0 <= i < |os| ==> os[i].name != o.name
    ensures Run(At(root, nm, name, ss, s, os), OptionStmts(o), strict) ==
            Ok(At(root, nm, name, ss, s, if Full(o) then os + [o] else os))
  {
    hide FindOption, At, Run;
    AtValid(root, nm, name, ss, s, os);
    match o
    case Str(n, value) =>
      NoOption(os, n);
      PutAt(root, nm, name, ss, s, os, false, n, value, strict);
    case Lst(n, items) =>
      if items != [] {
        RunItems(root, nm, name, ss, s, os, n, items, strict);
      } else {
        NoStmts(At(root, nm, name, ss, s, os), strict);
      }
  }

  lemma {:induction false} RunOptions(root: seq<Package>, nm: Maybe<Text>, name: Text, ss: seq<Section>,
                                      s: Section, os: seq<Option>, strict: bool)
    requires forall i :: 0 <= i < |os| ==> GoodOption(os[i])
    requires forall i, j :: 0 <= i < j < |os| ==> os[i].name != os[j].name
    ensures Run(At(root, nm, name, ss, s, []), AllOptionStmts(os), strict) ==
            Ok(At(root, nm, name, ss, s, Survivors(os)))
    decreases |os|
  {
    hide At, OptionStmts, GoodOption, Full;
    var c, n := At(root, nm, name, ss, s, []), |os| - 1;
    AtValid(root, nm, name, ss, s, []);
    if os != [] {
      var kept := Survivors(os[..n]);
      AtValid(root, nm, name, ss, s, kept);
      RunOptions(root, nm, name, ss, s, os[..n], strict);
      OtherNames(os, kept);
      RunOption(root, nm, name, ss, s, kept, os[n], strict);
      RunCat(c, AllOptionStmts(os[..n]), OptionStmts(os[n]), strict);
      assert kept + [] == kept;
    }
  }

  lemma OtherNames(os: seq<Option>, kept: seq<Option>)
    requires os != [] && forall i, j :: 0 <= i < j < |os| ==> os[i].name != os[j].name
    requires forall o :: o in kept ==> o in os[..|os| - 1]
    ensures forall i :: 0 <= i < |kept| ==> kept[i].name != os[|os| - 1].name
  {
    forall i | 0 <= i < |kept|
      ensures kept[i].name != os[|os| - 1].name
    {
      assert kept[i] in kept && kept[i] in os[..|os| - 1];
      var k :| 0 <= k < |os| - 1 && os[k] == kept[i];
    }
  }

  /** A configuration with the sections `ss`. */
  function With(root: seq<Package>, nm: Maybe<Text>, name: Text, ss: seq<Section>): Conf {
    Conf(root, nm, Some(Package(name, ss)), if ss == [] then None else Some(|ss| - 1), {})
  }

  lemma OpenNew(root: seq<Package>, nm: Maybe<Text>, name: Text, ss: seq<Section>, s: Section, strict: bool)
    requires s.name != [] && !s.anonymous && forall i :: 0 <= i < |ss| ==> ss[i].name != s.name
    ensures Run(With(root, nm, name, ss), [Blank, ConfigStmt(s.typ, s.name)], strict) ==
            Ok(At(root, nm, name, ss, s, []))
  {
    hide FindSection;
    var c := With(root, nm, name, ss);
    NoSection(ss, s.name);
    assert [Blank, ConfigStmt(s.typ, s.name)][1..] == [ConfigStmt(s.typ, s.name)];
    RunOne(c, ConfigStmt(s.typ, s.name), strict);
  }

  lemma RunSection(root: seq<Package>, nm: Maybe<Text>, name: Text, ss: seq<Section>, s: Section, strict: bool)
    requires GoodSection(s) && forall i :: 0 <= i < |ss| ==> ss[i].name != s.name
    ensures Run(With(root, nm, name, ss), SectionStmts(s), strict) == Ok(With(root, nm, name, ss + [Surviving(s)]))
  {
    hide Run, AllOptionStmts, GoodOption;
    var c := With(root, nm, name, ss);
    OpenNew(root, nm, name, ss, s, strict);
    RunCat(c, [Blank, ConfigStmt(s.typ, s.name)], AllOptionStmts(s.options), strict);
    RunOptions(root, nm, name, ss, s, s.options, strict);
  }

  lemma {:induction false} RunSections(root: seq<Package>, nm: Maybe<Text>, name: Text, ss: seq<Section>, strict: bool)
    requires GoodSections(ss)
    ensures Run(With(root, nm, name, []), AllSectionStmts(ss), strict) == Ok(With(root, nm, name, AllSurviving(ss)))
    decreases |ss|
  {
    hide SectionStmts, GoodSection;
    var c, n := With(root, nm, name, []), |ss| - 1;
    if ss != [] {
      RunSections(root, nm, name, ss[..n], strict);
      RunSection(root, nm, name, AllSurviving(ss[..n]), ss[n], strict);
      RunCat(c, AllSectionStmts(ss[..n]), SectionStmts(ss[n]), strict);
      assert AllSurviving(ss[..n]) + [Surviving(ss[n])] == AllSurviving(ss);
    } else {
      assert AllSurviving(ss) == [];
    }
  }

  /** The configuration an import starts with. */
  function Fresh(root: seq<Package>, name: Maybe<Text>): Conf { Conf(root, name, None, None, {}) }

  lemma RunOne(c: Conf, s: Stmt, strict: bool)
    requires ValidConf(c)
    ensures Run(c, [s], strict) == Apply(c, s, strict)
  {
    hide Apply;
    assert [s][1..] == [];
    var r := Apply(c, s, strict);
    if r.Ok? { assert Run(r.value, [s][1..], strict) == Ok(r.value); }
  }

  /** The end of an import: the package it is about, and what is loaded then. */
  function Finish(c: Conf, name: Maybe<Text>): Result<(Maybe<Package>, Conf)> {
    var r := if c.package.None? && name.Some? then SwitchConfig(c, name) else Ok(c);
    if r.Err? then Err(r.error)
    else
      var last := SwitchConfig(r.value, None);
      if last.Err? then Err(last.error) else Ok((r.value.package, last.value))
  }

  lemma {:induction false} FirstStmts(ss: seq<Section>)
    requires ss != []
    ensures var t := AllSectionStmts(ss); |t| >= 2 && t[0] == Blank && t[1].ConfigStmt?
  {
    var n := |ss| - 1;
    if n > 0 {
      FirstStmts(ss[..n]);
    } else {
      assert ss[..n] == [];
      assert AllSectionStmts(ss) == AllSectionStmts([]) + SectionStmts(ss[0]);
    }
  }

  /** A file without a package statement: the first section brings the package. */
  lemma LateSwitch(c: Conf, ss: seq<Stmt>, strict: bool)
    requires ValidConf(c) && |ss| >= 2 && ss[0] == Blank && ss[1].ConfigStmt? && NeedPackage(c).Ok?
    ensures Run(c, ss, strict) == Run(NeedPackage(c).value, ss, strict)
  {
    hide OpenSection;
    var d := NeedPackage(c).value;
    assert Run(c, ss, strict) == Run(c, ss[1..], strict);
    assert Run(d, ss, strict) == Run(d, ss[1..], strict);
    assert ss[1..][0] == ss[1];
    assert Apply(c, ss[1], strict) == Apply(d, ss[1], strict);
  }

  lemma RunHeader(root: seq<Package>, p: Package, strict: bool)
    requires GoodSections(p.sections) && !Loaded(root, p.name)
    ensures Run(Fresh(root, None), [PackageStmt(p.name)] + AllSectionStmts(p.sections), strict) ==
            Ok(With(root, Some(p.name), p.name, AllSurviving(p.sections)))
  {
    hide AllSectionStmts, GoodSection, Run, Loaded;
    var c := Fresh(root, None);
    RunCat(c, [PackageStmt(p.name)], AllSectionStmts(p.sections), strict);
    RunOne(c, PackageStmt(p.name), strict);
    RunSections(root, Some(p.name), p.name, p.sections, strict);
  }

  lemma RunNamed(root: seq<Package>, p: Package, strict: bool)
    requires GoodSections(p.sections) && !Loaded(root, p.name)
    ensures Run(Fresh(root, Some(p.name)), AllSectionStmts(p.sections), strict)
            == Ok(if p.sections == [] then Fresh(root, Some(p.name))
                else With(root, Some(p.name), p.name, AllSurviving(p.sections)))
  {
    hide GoodSection, Run, Loaded, AllSectionStmts;
    var c, ss := Fresh(root, Some(p.name)), AllSectionStmts(p.sections);
    if p.sections != [] {
      FirstStmts(p.sections);
      LateSwitch(c, ss, strict);
      RunSections(root, Some(p.name), p.name, p.sections, strict);
    } else {
      NoStmts(c, strict);
    }
  }

  lemma NoStmts(c: Conf, strict: bool)
    requires ValidConf(c)
    ensures AllSectionStmts([]) == [] && Run(c, [], strict) == Ok(c) && Run(c, [Blank], strict) == Ok(c)
  {
    RunOne(c, Blank, strict);
  }

  /** Running the statements of a package makes that package, without its empty options. */
  lemma Rebuild(root: seq<Package>, p: Package, header: bool, strict: bool)
    requires GoodSections(p.sections) && !Loaded(root, p.name)
    ensures var name := if header then None else Some(p.name);
            var r := Run(Fresh(root, name), PackageStmts(p, header), strict);
            && r.Ok? && Finish(r.value, name).Ok?
            && Finish(r.value, name).value.0 == Some(Reread(p))
               && Finish(r.value, name).value.1.root == root + [Reread(p)]
  {
    hide AllSectionStmts, GoodSection, Run, Loaded;
    var name := if header then None else Some(p.name);
    var c, ss := Fresh(root, name), AllSectionStmts(p.sections);
    var head := if header then [PackageStmt(p.name)] else [];
    var c' := if header || p.sections != [] then With(root, Some(p.name), p.name, AllSurviving(p.sections)) else c;
    assert head == [] ==> head + ss == ss;
    assert p.sections == [] ==> AllSurviving(p.sections) == [];
    if header { RunHeader(root, p, strict); } else { RunNamed(root, p, strict); }
    assert Run(c, head + ss, strict) == Ok(c');
    RunCat(c, head + ss, [Blank], strict);
    NoStmts(c', strict);
  }
}
