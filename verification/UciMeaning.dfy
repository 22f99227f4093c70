/** list.h and file.c of libuci: what a file says, told from its statements alone. */
module UciMeaning {
  import opened UciText
  import opened UciConfig

  // ----- looking an option up

  ghost function Lookup(os: seq<Option>, name: Text): Maybe<Option> {
    if os == [] then None else if os[0].name == name then Some(os[0]) else Lookup(os[1..], name)
  }

  /** The options with other names, in order. */
  ghost function Others(os: seq<Option>, name: Text): seq<Option> {
    if os == [] then [] else (if os[0].name == name then [] else [os[0]]) + Others(os[1..], name)
  }

  ghost predicate Unique(os: seq<Option>) { forall i, j :: 0 <= i < j < |os| ==> os[i].name != os[j].name }

  lemma LookupCat(a: seq<Option>, b: seq<Option>, name: Text)
    ensures Lookup(a + b, name) == if Lookup(a, name).Some? then Lookup(a, name) else Lookup(b, name)
    ensures Others(a + b, name) == Others(a, name) + Others(b, name)
  {
    hide Lookup, Others;
    LookupJoin(a, b, name);
    OthersJoin(a, b, name);
  }

  lemma {:induction false} LookupJoin(a: seq<Option>, b: seq<Option>, name: Text)
    ensures Lookup(a + b, name) == if Lookup(a, name).Some? then Lookup(a, name) else Lookup(b, name)
  {
    if a == [] {
      assert a + b == b;
    } else {
      assert (a + b)[0] == a[0] && (a + b)[1..] == a[1..] + b;
      LookupJoin(a[1..], b, name);
    }
  }

  lemma {:induction false} OthersJoin(a: seq<Option>, b: seq<Option>, name: Text)
    ensures Others(a + b, name) == Others(a, name) + Others(b, name)
  {
    if a == [] {
      assert a + b == b && [] + Others(b, name) == Others(b, name);
    } else {
      assert (a + b)[0] == a[0] && (a + b)[1..] == a[1..] + b;
      OthersJoin(a[1..], b, name);
      var x := if a[0].name == name then [] else [a[0]];
      assert x + (Others(a[1..], name) + Others(b, name)) == x + Others(a[1..], name) + Others(b, name);
    }
  }

  lemma {:induction false} LookupNone(os: seq<Option>, name: Text)
    ensures Lookup(os, name).None? <==> forall i :: 0 <= i < |os| ==> os[i].name != name
    ensures Lookup(os, name).None? ==> Others(os, name) == os
    ensures Lookup(os, name).Some? ==> Lookup(os, name).value in os && Lookup(os, name).value.name == name
  {
    if os != [] { LookupNone(os[1..], name); }
  }

  lemma OthersIn(os: seq<Option>, name: Text)
    ensures forall o :: o in Others(os, name) <==> o in os && o.name != name
    ensures Unique(os) ==> Unique(Others(os, name))
    ensures forall n :: n != name ==> Lookup(Others(os, name), n) == Lookup(os, n)
  {
    hide Lookup, Others, Unique;
    OthersAre(os, name);
    if Unique(os) { OthersUnique(os, name); }
    forall n | n != name
      ensures Lookup(Others(os, name), n) == Lookup(os, n)
    {
      OthersFound(os, name, n);
    }
  }

  lemma {:induction false} OthersAre(os: seq<Option>, name: Text)
    ensures forall o :: o in Others(os, name) <==> o in os && o.name != name
  {
    if os != [] {
      OthersAre(os[1..], name);
      assert os == [os[0]] + os[1..];
    }
  }

  lemma {:induction false} OthersUnique(os: seq<Option>, name: Text)
    requires Unique(os)
    ensures Unique(Others(os, name))
  {
    if os != [] {
      OthersUnique(os[1..], name);
      var r := Others(os[1..], name);
      OthersAre(os[1..], name);
      hide Others;
      forall i | 0 <= i < |r|
        ensures r[i].name != os[0].name
      {
        var j :| 0 <= j < |os[1..]| && os[1..][j] == r[i];
        assert os[j + 1] == r[i];
      }
      UniqueFront(os[0], r);
    }
  }

  lemma Differ(r: seq<Option>, i: nat, j: nat)
    requires Unique(r) && i < j < |r|
    ensures r[i].name != r[j].name
  {
  }

  lemma UniqueFront(o: Option, r: seq<Option>)
    requires Unique(r) && forall i :: 0 <= i < |r| ==> r[i].name != o.name
    ensures Unique([o] + r) && [] + r == r
  {
    hide Unique;
    var u := [o] + r;
    forall j | 1 <= j < |u|
      ensures u[0].name != u[j].name
    {
      assert u[j] == r[j - 1];
    }
    forall i, j | 1 <= i < j < |u|
      ensures u[i].name != u[j].name
    {
      assert u[i] == r[i - 1] && u[j] == r[j - 1];
      Differ(r, i - 1, j - 1);
    }
    IsUnique(u);
  }

  lemma IsUnique(u: seq<Option>)
    requires forall i, j :: 0 <= i < j < |u| ==> u[i].name != u[j].name
    ensures Unique(u)
  {
  }

  lemma {:induction false} OthersFound(os: seq<Option>, name: Text, n: Text)
    requires n != name
    ensures Lookup(Others(os, name), n) == Lookup(os, n)
  {
    if os != [] {
      OthersFound(os[1..], name, n);
      var r := Others(os[1..], name);
      assert [] + r == r && ([os[0]] + r)[1..] == r;
    }
  }

  lemma OneOption(o: Option, name: Text)
    ensures Lookup([o], name) == if o.name == name then Some(o) else None
    ensures Others([o], name) == if o.name == name then [] else [o]
  {
    assert [o][1..] == [];
  }

  lemma Elsewhere(os: seq<Option>, i: nat)
    requires Unique(os) && i < |os|
    ensures var a, b := os[..i], os[i + 1..];
            && (forall j :: 0 <= j < |a| ==> a[j].name != os[i].name)
            && (forall j :: 0 <= j < |b| ==> b[j].name != os[i].name)
    ensures os == os[..i] + ([os[i]] + os[i + 1..])
  {
  }

  /** The option at its place. */
  lemma Around(os: seq<Option>, i: nat)
    requires Unique(os) && i < |os|
    ensures Lookup(os, os[i].name) == Some(os[i])
    ensures Others(os, os[i].name) == os[..i] + os[i + 1..]
  {
    hide Lookup, Others, Unique;
    var name, a, b := os[i].name, os[..i], os[i + 1..];
    Elsewhere(os, i);
    LookupCat(a, [os[i]] + b, name);
    LookupCat([os[i]], b, name);
    OneOption(os[i], name);
    LookupNone(a, name);
    LookupNone(b, name);
    assert [] + b == b;
  }

  /** An option behind options with other names. */
  lemma Behind(os: seq<Option>, o: Option)
    requires Unique(os)
    ensures var r := Others(os, o.name) + [o];
            && Unique(r) && Lookup(r, o.name) == Some(o) && Others(r, o.name) == Others(os, o.name)
            && forall n :: n != o.name ==> Lookup(r, n) == Lookup(os, n)
  {
    hide Lookup, Others;
    var rest := Others(os, o.name);
    OthersIn(os, o.name);
    LookupNone(rest, o.name);
    LookupCat(rest, [o], o.name);
    OneOption(o, o.name);
    forall n | n != o.name
      ensures Lookup(rest + [o], n) == Lookup(os, n)
    {
      LookupCat(rest, [o], n);
      OneOption(o, n);
    }
    forall i, j | 0 <= i < j < |rest + [o]|
      ensures (rest + [o])[i].name != (rest + [o])[j].name
    {
      if j == |rest| { assert rest[i] in rest; }
    }
  }

  // ----- setting an option

  /** An option statement: the option has the value then, once, and all others stay. */
  lemma SetLaw(os: seq<Option>, name: Text, value: Text)
    requires Unique(os)
    ensures var r := SetOption(os, name, value);
            && Unique(r) && Others(r, name) == Others(os, name)
            && (forall n :: n != name ==> Lookup(r, n) == Lookup(os, n))
            && Lookup(r, name) == (if value == [] then Lookup(os, name) else Some(Str(name, value)))
            && r == if value == [] || Lookup(os, name) == Some(Str(name, value)) then os
                    else Others(os, name) + [Str(name, value)]
  {
    hide Lookup, Others, Unique, FindOption;
    var i := FindOption(os, name);
    LookupNone(os, name);
    if i < |os| { Around(os, i); }
    Behind(os, Str(name, value));
  }

  /** The items of a list, or of what becomes one. */
  ghost function Items(o: Maybe<Option>): seq<Text> {
    match o
    case None => []
    case Some(Str(_, value)) => [value]
    case Some(Lst(_, items)) => items
  }

  /** A list statement: one more item, and all others stay. A list stays in its place. */
  lemma AddLaw(os: seq<Option>, name: Text, value: Text)
    requires Unique(os)
    ensures var r, o := AddList(os, name, value), Lst(name, Items(Lookup(os, name)) + [value]);
            && Unique(r) && Others(r, name) == Others(os, name)
            && (forall n :: n != name ==> Lookup(r, n) == Lookup(os, n))
            && Lookup(r, name) == Some(o)
            && if Lookup(os, name).Some? && Lookup(os, name).value.Lst?
               then |r| == |os| && forall i :: 0 <= i < |os| ==> r[i] == if os[i].name == name then o else os[i]
               else r == Others(os, name) + [o]
  {
    hide Lookup, Others, FindOption;
    var i := FindOption(os, name);
    var o := Lst(name, Items(Lookup(os, name)) + [value]);
    LookupNone(os, name);
    Behind(os, o);
    if i < |os| {
      Around(os, i);
      match os[i] {
        case Lst(_, _) => InPlace(os, i, o);
        case Str(_, first) => assert [first] + [value] == [first, value];
      }
    } else {
      assert [] + [value] == [value];
    }
  }

  lemma InPlace(os: seq<Option>, i: nat, o: Option)
    requires Unique(os) && i < |os| && o.name == os[i].name
    ensures var r := os[i := o];
            && Unique(r) && Others(r, o.name) == Others(os, o.name) && Lookup(r, o.name) == Some(o)
            && forall n :: n != o.name ==> Lookup(r, n) == Lookup(os, n)
  {
    hide Lookup, Others;
    var r := os[i := o];
    Around(os, i);
    Around(r, i);
    assert r[..i] == os[..i] && r[i + 1..] == os[i + 1..];
    forall n | n != o.name
      ensures Lookup(r, n) == Lookup(os, n)
    {
      OthersIn(os, o.name);
      OthersIn(r, o.name);
    }
  }

  // ----- what the statements of a package say

  /** A section: the one of this name, or the n-th without a name. */
  datatype Key = Named(name: Text) | Anon(number: nat)

  function Anons(ss: seq<Stmt>): nat {
    if ss == [] then 0
    else
      var n := |ss| - 1;
      Anons(ss[..n]) + if ss[n].ConfigStmt? && ss[n].name == [] then 1 else 0
  }

  function KeyOf(before: seq<Stmt>, name: Text): Key { if name == [] then Anon(Anons(before)) else Named(name) }

  /** The section that options go to. */
  function Current(ss: seq<Stmt>): Maybe<Key> {
    if ss == [] then None
    else
      var n := |ss| - 1;
      if ss[n].ConfigStmt? then Some(KeyOf(ss[..n], ss[n].name)) else Current(ss[..n])
  }

  /** The sections, in the order of their first statements. */
  function Keys(ss: seq<Stmt>): seq<Key> {
    if ss == [] then []
    else
      var n := |ss| - 1;
      var ks := Keys(ss[..n]);
      if ss[n].ConfigStmt? && KeyOf(ss[..n], ss[n].name) !in ks then ks + [KeyOf(ss[..n], ss[n].name)] else ks
  }

  /** How many statements open a section, and the type the last of them gives. */
  function Mentions(ss: seq<Stmt>, k: Key): nat {
    if ss == [] then 0
    else
      var n := |ss| - 1;
      Mentions(ss[..n], k) + if ss[n].ConfigStmt? && KeyOf(ss[..n], ss[n].name) == k then 1 else 0
  }

  function TypeOf(ss: seq<Stmt>, k: Key): Text {
    if ss == [] then []
    else
      var n := |ss| - 1;
      if ss[n].ConfigStmt? && KeyOf(ss[..n], ss[n].name) == k then ss[n].typ else TypeOf(ss[..n], k)
  }

  /** The option statements of a section, wherever they are. */
  function Mine(ss: seq<Stmt>, k: Key): seq<Stmt> {
    if ss == [] then []
    else
      var n := |ss| - 1;
      Mine(ss[..n], k) + if ss[n].OptionStmt? && Current(ss[..n]) == Some(k) then [ss[n]] else []
  }

  /** What they say of one option: the last one that is not an empty string counts, and a
      list statement adds to what is there. */
  ghost function ValueOf(ms: seq<Stmt>, name: Text): Maybe<Option> {
    if ms == [] then None
    else
      var n := |ms| - 1;
      var s, before := ms[n], ValueOf(ms[..n], name);
      if !s.OptionStmt? || s.name != name then before
      else if s.list then Some(Lst(name, Items(before) + [s.value]))
      else if s.value == [] then before
      else Some(Str(name, s.value))
  }

  /** Options need a section, which is lost when it is opened a third time; and in strict
      mode no section changes its type. */
  ghost predicate Allowed(ss: seq<Stmt>, strict: bool) {
    ss != [] ==>
      var n := |ss| - 1;
      var before, s := ss[..n], ss[n];
      && Allowed(before, strict)
      && (s.OptionStmt? ==>
            && Current(before).Some?
            && (Current(before).value.Named? ==> Mentions(before, Current(before).value) <= 2))
      && (strict && s.ConfigStmt? && s.name != [] && Named(s.name) in Keys(before) ==>
            s.typ == TypeOf(before, Named(s.name)))
  }

  ghost predicate SectionSays(s: Section, ss: seq<Stmt>, k: Key) {
    && s.name == (if k.Named? then k.name else []) && s.anonymous == k.Anon? && s.typ == TypeOf(ss, k)
    && Unique(s.options) && forall n :: Lookup(s.options, n) == ValueOf(Mine(ss, k), n)
  }

  /** The sections are those the statements open, in order, and each option has the value
      that the statements of its section give it. */
  ghost predicate Says(p: Package, ss: seq<Stmt>) {
    |p.sections| == |Keys(ss)| && forall j :: 0 <= j < |Keys(ss)| ==> SectionSays(p.sections[j], ss, Keys(ss)[j])
  }

  // ----- running them

  ghost predicate GoodKeys(ss: seq<Stmt>) {
    && (forall i, j :: 0 <= i < j < |Keys(ss)| ==> Keys(ss)[i] != Keys(ss)[j])
    && (forall i :: 0 <= i < |Keys(ss)| ==>
          if Keys(ss)[i].Named? then Keys(ss)[i].name != [] else Keys(ss)[i].number < Anons(ss))
    && (Current(ss).Some? ==> Current(ss).value in Keys(ss))
  }

  lemma Snoc(ss: seq<Stmt>, s: Stmt)
    ensures (ss + [s])[..|ss|] == ss && (ss + [s])[|ss|] == s && |ss + [s]| - 1 == |ss|
  {
  }

  lemma {:induction false} KeysGood(ss: seq<Stmt>)
    ensures GoodKeys(ss)
  {
    if ss != [] { KeysGood(ss[..|ss| - 1]); }
  }

  lemma {:induction false} NotMine(ss: seq<Stmt>, k: Key)
    requires k !in Keys(ss)
    ensures Mine(ss, k) == [] && Mentions(ss, k) == 0
  {
    if ss != [] {
      var n := |ss| - 1;
      NotMine(ss[..n], k);
      KeysGood(ss[..n]);
    }
  }

  /** The configuration after the statements. */
  ghost predicate Holds(c: Conf, root: seq<Package>, name: Text, ss: seq<Stmt>) {
    && ValidConf(c) && c.root == root && c.name == Some(name)
    && (if c.package.None? then Keys(ss) == [] && c.cur.None? && c.retyped == {}
        else c.package.value.name == name && Says(c.package.value, ss))
    && (c.cur.None? <==>
          Current(ss).None? || (Current(ss).value.Named? && Mentions(ss, Current(ss).value) > 2))
    && (c.cur.Some? ==> c.cur.value < |Keys(ss)| && Current(ss) == Some(Keys(ss)[c.cur.value]))
    && forall i :: i in c.retyped <==> 0 <= i < |Keys(ss)| && Mentions(ss, Keys(ss)[i]) >= 2
  }

  lemma OptionSnoc(ss: seq<Stmt>, s: Stmt)
    requires s.OptionStmt? || s.Blank?
    ensures var t := ss + [s];
            && Keys(t) == Keys(ss) && Anons(t) == Anons(ss) && Current(t) == Current(ss)
            && (forall k :: Mentions(t, k) == Mentions(ss, k) && TypeOf(t, k) == TypeOf(ss, k))
            && forall k :: Mine(t, k) == Mine(ss, k) + if s.OptionStmt? && Current(ss) == Some(k) then [s] else []
  {
    Snoc(ss, s);
  }

  lemma ConfigSnoc(ss: seq<Stmt>, s: Stmt)
    requires s.ConfigStmt?
    ensures var t, k0 := ss + [s], KeyOf(ss, s.name);
            && Current(t) == Some(k0) && Anons(t) == Anons(ss) + (if s.name == [] then 1 else 0)
            && Keys(t) == (if k0 in Keys(ss) then Keys(ss) else Keys(ss) + [k0])
            && (forall k :: Mentions(t, k) == Mentions(ss, k) + if k == k0 then 1 else 0)
            && (forall k :: TypeOf(t, k) == if k == k0 then s.typ else TypeOf(ss, k))
            && forall k :: Mine(t, k) == Mine(ss, k)
  {
    Snoc(ss, s);
    assert forall k :: Mine(ss, k) + [] == Mine(ss, k);
  }

  lemma ValueSnoc(ms: seq<Stmt>, s: Stmt, name: Text)
    requires s.OptionStmt?
    ensures ValueOf(ms + [s], name) ==
            if s.name != name then ValueOf(ms, name)
            else if s.list then Some(Lst(name, Items(ValueOf(ms, name)) + [s.value]))
            else if s.value == [] then ValueOf(ms, name) else Some(Str(name, s.value))
  {
    Snoc(ms, s);
  }

  /** One more option statement, in its section. */
  lemma {:induction false} SectionMore(sec: Section, ss: seq<Stmt>, k: Key, s: Stmt)
    requires SectionSays(sec, ss, k) && s.OptionStmt? && Current(ss) == Some(k)
    ensures var os := if s.list then AddList(sec.options, s.name, s.value) else SetOption(sec.options, s.name, s.value);
            SectionSays(sec.(options := os), ss + [s], k)
  {
    hide Lookup, Others, Unique, SetOption, AddList, Mine, TypeOf, ValueOf, Current;
    OptionSnoc(ss, s);
    SetLaw(sec.options, s.name, s.value);
    AddLaw(sec.options, s.name, s.value);
    var os := if s.list then AddList(sec.options, s.name, s.value) else SetOption(sec.options, s.name, s.value);
    forall n
      ensures Lookup(os, n) == ValueOf(Mine(ss + [s], k), n)
    {
      ValueSnoc(Mine(ss, k), s, n);
    }
  }

  /** A statement that says nothing about a section. */
  lemma SectionSame(sec: Section, ss: seq<Stmt>, k: Key, t: seq<Stmt>)
    requires SectionSays(sec, ss, k) && TypeOf(t, k) == TypeOf(ss, k) && Mine(t, k) == Mine(ss, k)
    ensures SectionSays(sec, t, k)
  {
    hide Lookup, Unique, ValueOf;
  }

  lemma OptionStep(c: Conf, root: seq<Package>, name: Text, ss: seq<Stmt>, s: Stmt)
    requires Holds(c, root, name, ss) && s.OptionStmt? && c.cur.Some?
    ensures Holds(PutOption(c, s.list, s.name, s.value), root, name, ss + [s])
  {
    hide SectionSays, SetOption, AddList, Mine, TypeOf, Keys, Current, Mentions;
    var t, p, i := ss + [s], c.package.value, c.cur.value;
    OptionSnoc(ss, s);
    KeysGood(ss);
    var r := PutOption(c, s.list, s.name, s.value);
    SectionMore(p.sections[i], ss, Keys(ss)[i], s);
    forall j | 0 <= j < |Keys(t)|
      ensures SectionSays(r.package.value.sections[j], t, Keys(t)[j])
    {
      if j != i {
        assert Keys(ss)[j] != Keys(ss)[i] by { KeysApart(ss, i, j); }
        assert Mine(ss, Keys(ss)[j]) + [] == Mine(ss, Keys(ss)[j]);
        SectionSame(p.sections[j], ss, Keys(ss)[j], t);
      }
    }
  }

  lemma KeysApart(ss: seq<Stmt>, i: nat, j: nat)
    requires GoodKeys(ss) && i < |Keys(ss)| && j < |Keys(ss)| && i != j
    ensures Keys(ss)[i] != Keys(ss)[j]
  {
    hide Keys;
  }

  lemma BlankStep(c: Conf, root: seq<Package>, name: Text, ss: seq<Stmt>)
    requires Holds(c, root, name, ss)
    ensures Holds(c, root, name, ss + [Blank])
  {
    hide SectionSays, Mine, TypeOf, Keys, Current, Mentions;
    var t := ss + [Blank];
    OptionSnoc(ss, Blank);
    if c.package.Some? {
      forall j | 0 <= j < |Keys(t)|
        ensures SectionSays(c.package.value.sections[j], t, Keys(t)[j])
      {
        assert Mine(ss, Keys(ss)[j]) + [] == Mine(ss, Keys(ss)[j]);
        SectionSame(c.package.value.sections[j], ss, Keys(ss)[j], t);
      }
    }
  }

  /** The section of a name is at the place of its key. */
  lemma SectionAt(p: Package, ss: seq<Stmt>, name: Text)
    requires Says(p, ss) && GoodKeys(ss) && name != []
    ensures var i := FindSection(p.sections, name);
            if i < |p.sections| then Keys(ss)[i] == Named(name) else Named(name) !in Keys(ss)
  {
    hide Keys, Unique, TypeOf, Mine, ValueOf, Lookup;
    forall j | 0 <= j < |Keys(ss)|
      ensures p.sections[j].name == if Keys(ss)[j].Named? then Keys(ss)[j].name else []
    {
      assert SectionSays(p.sections[j], ss, Keys(ss)[j]);
    }
  }

  lemma NewSection(ss: seq<Stmt>, s: Stmt)
    requires s.ConfigStmt? && KeyOf(ss, s.name) !in Keys(ss)
    ensures SectionSays(Section(s.name, s.typ, s.name == [], []), ss + [s], KeyOf(ss, s.name))
  {
    hide Mine, TypeOf;
    ConfigSnoc(ss, s);
    NotMine(ss, KeyOf(ss, s.name));
  }

  /** A statement that opens a new section. */
  lemma NewStep(c: Conf, root: seq<Package>, name: Text, ss: seq<Stmt>, s: Stmt, r: Conf)
    requires Holds(c, root, name, ss) && s.ConfigStmt? && c.package.Some? && KeyOf(ss, s.name) !in Keys(ss)
    requires var p := c.package.value;
             var sections := p.sections + [Section(s.name, s.typ, s.name == [], [])];
             r == Conf(c.root, c.name, Some(Package(p.name, sections)), Some(|p.sections|), c.retyped)
    ensures Holds(r, root, name, ss + [s])
  {
    hide SectionSays, Mine, TypeOf, Keys, Current, Mentions;
    var t, p, k := ss + [s], c.package.value, KeyOf(ss, s.name);
    ConfigSnoc(ss, s);
    NewSection(ss, s);
    NotMine(ss, k);
    forall j | 0 <= j < |Keys(t)|
      ensures SectionSays(r.package.value.sections[j], t, Keys(t)[j])
    {
      if j < |Keys(ss)| {
        assert Keys(ss)[j] != k;
        SectionSame(p.sections[j], ss, Keys(ss)[j], t);
      }
    }
    NewMentions(ss, s, c.retyped);
  }

  lemma NewMentions(ss: seq<Stmt>, s: Stmt, retyped: set<nat>)
    requires s.ConfigStmt? && KeyOf(ss, s.name) !in Keys(ss)
    requires forall i :: i in retyped <==> 0 <= i < |Keys(ss)| && Mentions(ss, Keys(ss)[i]) >= 2
    ensures var t := ss + [s];
            && Mentions(t, KeyOf(ss, s.name)) == 1
            && forall i :: i in retyped <==> 0 <= i < |Keys(t)| && Mentions(t, Keys(t)[i]) >= 2
  {
    hide Keys, Mentions;
    ConfigSnoc(ss, s);
    NotMine(ss, KeyOf(ss, s.name));
    var t := ss + [s];
    forall i
      ensures i in retyped <==> 0 <= i < |Keys(t)| && Mentions(t, Keys(t)[i]) >= 2
    {
      if 0 <= i < |Keys(ss)| { assert Keys(t)[i] == Keys(ss)[i] != KeyOf(ss, s.name); }
    }
  }

  /** A statement that opens a section again. */
  lemma {:induction false} AgainStep(c: Conf, root: seq<Package>, name: Text, ss: seq<Stmt>, s: Stmt, i: nat, r: Conf)
    requires Holds(c, root, name, ss) && s.ConfigStmt? && c.package.Some? && GoodKeys(ss) && s.name != []
    requires i < |Keys(ss)| == |c.package.value.sections| && Keys(ss)[i] == Named(s.name)
    requires var p := c.package.value;
             var sections := p.sections[i := p.sections[i].(typ := s.typ)];
             r == Conf(c.root, c.name, Some(Package(p.name, sections)), if i in c.retyped then None else Some(i),
                       c.retyped + {i})
    ensures Holds(r, root, name, ss + [s])
  {
    hide SectionSays, Mine, TypeOf, Keys, Current, Mentions;
    var t, p, k := ss + [s], c.package.value, Named(s.name);
    ConfigSnoc(ss, s);
    forall j | 0 <= j < |Keys(t)|
      ensures SectionSays(r.package.value.sections[j], t, Keys(t)[j])
    {
      if j != i {
        KeysApart(ss, i, j);
        SectionSame(p.sections[j], ss, Keys(ss)[j], t);
      } else {
        Retyped(p.sections[i], ss, k, s);
      }
    }
    AgainMentions(ss, s, i, c.retyped);
  }

  lemma AgainMentions(ss: seq<Stmt>, s: Stmt, i: nat, retyped: set<nat>)
    requires s.ConfigStmt? && GoodKeys(ss) && s.name != [] && i < |Keys(ss)| && Keys(ss)[i] == Named(s.name)
    requires forall j :: j in retyped <==> 0 <= j < |Keys(ss)| && Mentions(ss, Keys(ss)[j]) >= 2
    ensures var t := ss + [s];
            && (i in retyped <==> Mentions(t, Named(s.name)) > 2)
            && forall j :: j in retyped + {i} <==> 0 <= j < |Keys(t)| && Mentions(t, Keys(t)[j]) >= 2
  {
    hide Keys, Mentions;
    ConfigSnoc(ss, s);
    Mentioned(ss, Named(s.name));
    var t := ss + [s];
    forall j
      ensures j in retyped + {i} <==> 0 <= j < |Keys(t)| && Mentions(t, Keys(t)[j]) >= 2
    {
      if 0 <= j < |Keys(ss)| && j != i { KeysApart(ss, i, j); }
    }
  }

  lemma {:induction false} Mentioned(ss: seq<Stmt>, k: Key)
    requires k in Keys(ss)
    ensures Mentions(ss, k) >= 1
  {
    if ss != [] {
      var n := |ss| - 1;
      if k in Keys(ss[..n]) { Mentioned(ss[..n], k); }
    }
  }

  lemma ConfigStep(c: Conf, root: seq<Package>, name: Text, ss: seq<Stmt>, s: Stmt, strict: bool)
    requires Holds(c, root, name, ss) && s.ConfigStmt? && c.package.Some?
    requires OpenSection(c, s.typ, s.name, strict).Ok?
    ensures Holds(OpenSection(c, s.typ, s.name, strict).value, root, name, ss + [s])
  {
    hide Holds, Mine, TypeOf, Keys, Current, Mentions, Says;
    KeysGood(ss);
    HeldSays(c, root, name, ss);
    var p, r := c.package.value, OpenSection(c, s.typ, s.name, strict).value;
    if s.name == [] {
      AnonNew(ss);
      NewStep(c, root, name, ss, s, r);
    } else {
      SectionAt(p, ss, s.name);
      var i := FindSection(p.sections, s.name);
      if i == |p.sections| {
        NewStep(c, root, name, ss, s, r);
      } else {
        AgainStep(c, root, name, ss, s, i, r);
      }
    }
  }

  lemma HeldSays(c: Conf, root: seq<Package>, name: Text, ss: seq<Stmt>)
    requires Holds(c, root, name, ss) && c.package.Some?
    ensures ValidConf(c) && Says(c.package.value, ss) && |c.package.value.sections| == |Keys(ss)|
  {
  }

  lemma AnonNew(ss: seq<Stmt>)
    requires GoodKeys(ss)
    ensures Anon(Anons(ss)) !in Keys(ss)
  {
    hide Keys;
  }

  lemma {:induction false} Retyped(sec: Section, ss: seq<Stmt>, k: Key, s: Stmt)
    requires SectionSays(sec, ss, k) && s.ConfigStmt? && KeyOf(ss, s.name) == k
    ensures SectionSays(sec.(typ := s.typ), ss + [s], k)
  {
    hide Lookup, Unique, ValueOf, Mine, TypeOf;
    ConfigSnoc(ss, s);
  }

  /** The first section brings the package. */
  lemma PackageComes(c: Conf, root: seq<Package>, name: Text, ss: seq<Stmt>)
    requires Holds(c, root, name, ss) && !Loaded(root, name)
    ensures ValidConf(c) && NeedPackage(c).Ok?
    ensures var r := NeedPackage(c).value; Holds(r, root, name, ss) && r.package.Some? && ValidConf(r)
  {
    hide Mine, TypeOf, Keys, Current, Mentions, SectionSays, Loaded;
    if c.package.None? {
      KeysGood(ss);
      NoKeys(ss);
    }
  }

  lemma NoKeys(ss: seq<Stmt>)
    requires Keys(ss) == [] && GoodKeys(ss)
    ensures Current(ss).None?
  {
    hide Keys, Current;
  }

  /** A section may be opened, unless its type changes in strict mode. */
  lemma MayOpen(c: Conf, root: seq<Package>, name: Text, ss: seq<Stmt>, s: Stmt, strict: bool)
    requires Holds(c, root, name, ss) && ValidConf(c) && c.package.Some? && s.ConfigStmt?
    ensures OpenSection(c, s.typ, s.name, strict).Ok? <==>
            (strict && s.name != [] && Named(s.name) in Keys(ss) ==> s.typ == TypeOf(ss, Named(s.name)))
  {
    hide Holds, Mine, TypeOf, Keys, Current, Mentions, Says;
    KeysGood(ss);
    HeldSays(c, root, name, ss);
    if s.name != [] {
      SectionAt(c.package.value, ss, s.name);
      var i := FindSection(c.package.value.sections, s.name);
      if i < |c.package.value.sections| { SectionType(c.package.value, ss, i); }
    }
  }

  lemma SectionType(p: Package, ss: seq<Stmt>, i: nat)
    requires Says(p, ss) && i < |p.sections|
    ensures p.sections[i].typ == TypeOf(ss, Keys(ss)[i])
  {
    hide TypeOf, Keys, Mine;
    assert SectionSays(p.sections[i], ss, Keys(ss)[i]);
  }

  lemma AllowedSnoc(ss: seq<Stmt>, s: Stmt, strict: bool)
    ensures Allowed(ss + [s], strict) <==>
            && Allowed(ss, strict)
            && (s.OptionStmt? ==>
                  Current(ss).Some? && (Current(ss).value.Named? ==> Mentions(ss, Current(ss).value) <= 2))
            && (strict && s.ConfigStmt? && s.name != [] && Named(s.name) in Keys(ss) ==>
                  s.typ == TypeOf(ss, Named(s.name)))
  {
    hide Current, Mentions, Keys, TypeOf;
    Snoc(ss, s);
  }

  lemma ApplyStep(c: Conf, root: seq<Package>, name: Text, ss: seq<Stmt>, s: Stmt, strict: bool)
    requires Holds(c, root, name, ss) && !s.PackageStmt? && !Loaded(root, name) && Allowed(ss, strict)
    ensures ValidConf(c) && (Apply(c, s, strict).Ok? <==> Allowed(ss + [s], strict))
    ensures Apply(c, s, strict).Ok? ==> Holds(Apply(c, s, strict).value, root, name, ss + [s])
  {
    hide Mine, TypeOf, Keys, Current, Mentions, Says, Loaded, OpenSection, PutOption, NeedPackage, Allowed;
    AllowedSnoc(ss, s, strict);
    match s
    case Blank =>
      BlankStep(c, root, name, ss);
    case ConfigStmt(typ, nm) =>
      PackageComes(c, root, name, ss);
      var d := NeedPackage(c).value;
      MayOpen(d, root, name, ss, s, strict);
      if OpenSection(d, typ, nm, strict).Ok? { ConfigStep(d, root, name, ss, s, strict); }
    case OptionStmt(_, _, _) =>
      if c.cur.Some? { OptionStep(c, root, name, ss, s); }
  }

  predicate OnePackage(ss: seq<Stmt>) { forall i :: 0 <= i < |ss| ==> !ss[i].PackageStmt? }

  /** Running the statements of one package makes what they say, and it succeeds exactly
      if they are allowed. */
  lemma {:induction false} RunSays(root: seq<Package>, name: Text, ss: seq<Stmt>, strict: bool)
    requires OnePackage(ss) && !Loaded(root, name)
    ensures var r := Run(Fresh(root, Some(name)), ss, strict);
            && (r.Ok? <==> Allowed(ss, strict))
            && (r.Ok? ==> Holds(r.value, root, name, ss))
    decreases |ss|
  {
    hide Holds, Apply, Loaded;
    var c := Fresh(root, Some(name));
    if ss == [] {
      AtStart(root, name);
    } else {
      var n := |ss| - 1;
      hide Run, Allowed;
      RunSays(root, name, ss[..n], strict);
      assert ss == ss[..n] + [ss[n]];
      RunCat(c, ss[..n], [ss[n]], strict);
      AllowedSnoc(ss[..n], ss[n], strict);
      var r := Run(c, ss[..n], strict);
      if r.Ok? {
        RunOne(r.value, ss[n], strict);
        ApplyStep(r.value, root, name, ss[..n], ss[n], strict);
      }
    }
  }

  lemma AtStart(root: seq<Package>, name: Text)
    ensures Holds(Fresh(root, Some(name)), root, name, []) && Allowed([], true) && Allowed([], false)
  {
  }

  /** What a whole import makes of them. */
  lemma FinishSays(root: seq<Package>, name: Text, ss: seq<Stmt>, strict: bool)
    requires OnePackage(ss) && !Loaded(root, name) && Allowed(ss, strict)
    ensures var r := Run(Fresh(root, Some(name)), ss, strict);
            && r.Ok? && Finish(r.value, Some(name)).Ok?
            && var (p, c) := Finish(r.value, Some(name)).value;
            p.Some? && p.value.name == name && Says(p.value, ss) && c.root == root + [p.value]
  {
    hide Run, Loaded, Keys, Current, Mentions, SectionSays, Allowed;
    RunSays(root, name, ss, strict);
  }

  /** A package statement files the package before it and starts an empty one, unless one
      of that name is there already. */
  lemma PackageSays(c: Conf, name: Text, strict: bool)
    requires ValidConf(c)
    ensures var r, filed := Apply(c, PackageStmt(name), strict),
                            if c.package.Some? then c.root + [c.package.value] else c.root;
            && (r.Ok? <==> forall p :: p in filed ==> p.name != name)
            && (r.Ok? ==> r.value == Conf(filed, Some(name), Some(Package(name, [])), None, {}))
            && (r.Err? ==> r.error == Duplicate)
  {
    var filed := if c.package.Some? then c.root + [c.package.value] else c.root;
    assert Loaded(filed, name) <==> exists p :: p in filed && p.name == name;
  }
}
