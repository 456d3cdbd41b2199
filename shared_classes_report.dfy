/**
 * SharedClassesReport: for every component (in ascending name order) and every class it
 * selects (in ascending simple-name order), the other component instances whose selected
 * classes contain that same ClassInfo object; one row per class that has any, appended to
 * the destination file.
 *
 * The report is specified by Entries (component, class, others) and Rows, the text of the
 * entries; the Write method is proved to append exactly Rows, and the lemmas below state
 * what the rows are.
 */
module SharedReport {
  import opened Strings
  import opened Sequences
  import opened ComponentNames
  import opened ClassInfos

  /** One report row before it is printed: the component, one of its selected classes, and
      the other components whose selected classes contain that object, in collection order. */
  datatype Entry<T> = Entry(component: T, cls: ClassInfo, others: seq<T>)

  /** The key of comparing(Component::name), which orders by the names' strings. */
  function NameKey<T>(name: T -> ComponentName): T -> string {
    c => name(c).value
  }

  /** The key of Stream.sorted() on strings. */
  function Identity(s: string): string {
    s
  }

  /** The filter of lines 29-30: another instance (c != component) whose selection contains cls. */
  function SharesClass<T(==)>(component: T, select: T -> seq<ClassInfo>, cls: ClassInfo): T -> bool {
    c => c != component && cls in select(c)
  }

  /** otherComponents: the components other than this instance that select the same object. */
  function Others<T(==)>(components: seq<T>, component: T, select: T -> seq<ClassInfo>, cls: ClassInfo): seq<T> {
    Filter(components, SharesClass(component, select, cls))
  }

  /** The others are the components other than this instance whose selection holds cls. */
  lemma OthersMembers<T>(components: seq<T>, component: T, select: T -> seq<ClassInfo>, cls: ClassInfo)
    ensures forall c | c in Others(components, component, select, cls) :: c in components && c != component && cls in select(c)
    ensures forall c | c in components && c != component && cls in select(c) :: c in Others(components, component, select, cls)
  {
    FilterMembers(components, SharesClass(component, select, cls));
  }

  /** The third field: the names of the given components, sorted, joined by single spaces. */
  function OtherNames<T>(others: seq<T>, name: T -> ComponentName): string {
    Join(" ", SortBy(Map(others, NameKey(name)), Identity))
  }

  /** One line of the report file. */
  function Row(componentName: string, simpleName: string, otherNames: string): string {
    componentName + "," + simpleName + "," + otherNames + "\n"
  }

  /** The row of an entry. */
  function RowText<T>(e: Entry<T>, name: T -> ComponentName): string {
    Row(name(e.component).value, e.cls.simpleName, OtherNames(e.others, name))
  }

  function RowTextOf<T>(name: T -> ComponentName): Entry<T> -> string {
    e => RowText(e, name)
  }

  /** The entry of one class of a component: present when some other component shares it. */
  function ClassEntry<T(==)>(components: seq<T>, component: T, select: T -> seq<ClassInfo>): ClassInfo -> seq<Entry<T>> {
    (cls: ClassInfo) =>
      var others := Others(components, component, select, cls);
      if others == [] then [] else [Entry(component, cls, others)]
  }

  /** The entries of one component: its selected classes sorted by simple name. */
  function ComponentEntries<T(==)>(components: seq<T>, component: T, select: T -> seq<ClassInfo>): seq<Entry<T>> {
    FlatMap(SortBy(select(component), SimpleName), ClassEntry(components, component, select))
  }

  function ComponentBlock<T(==)>(components: seq<T>, select: T -> seq<ClassInfo>): T -> seq<Entry<T>> {
    c => ComponentEntries(components, c, select)
  }

  /** All entries of the report: one block per component, the components sorted by name. */
  function Entries<T(==)>(components: seq<T>, name: T -> ComponentName, select: T -> seq<ClassInfo>): seq<Entry<T>> {
    FlatMap(SortBy(components, NameKey(name)), ComponentBlock(components, select))
  }

  /** The rows of one component's entries for the given classes, in the given order. */
  function ClassRowsOver<T(==)>(components: seq<T>, name: T -> ComponentName, select: T -> seq<ClassInfo>,
                                component: T, classes: seq<ClassInfo>): seq<string> {
    Map(FlatMap(classes, ClassEntry(components, component, select)), RowTextOf(name))
  }

  /** One iteration of write's inner loop appends a row exactly when another component shares the class. */
  lemma ClassRowsOverStep<T>(components: seq<T>, name: T -> ComponentName, select: T -> seq<ClassInfo>,
                             component: T, classes: seq<ClassInfo>, j: nat, base: seq<string>)
    requires j < |classes|
    ensures var others := Others(components, component, select, classes[j]);
            base + ClassRowsOver(components, name, select, component, classes[..j])
              + (if others == [] then [] else [Row(name(component).value, classes[j].simpleName, OtherNames(others, name))])
            == base + ClassRowsOver(components, name, select, component, classes[..j + 1])
  {
    var entry := ClassEntry(components, component, select);
    var text := RowTextOf(name);
    FlatMapStep(classes, entry, j);
    MapAppend(FlatMap(classes[..j], entry), entry(classes[j]), text);
    var others := Others(components, component, select, classes[j]);
    if others != [] {
      assert Map(entry(classes[j]), text) == [Row(name(component).value, classes[j].simpleName, OtherNames(others, name))];
    } else {
      assert Map(entry(classes[j]), text) == [];
    }
  }

  /** The rows of one class of a component: one row when another component shares it. */
  function ClassRows<T(==)>(components: seq<T>, name: T -> ComponentName, select: T -> seq<ClassInfo>,
                            component: T, cls: ClassInfo): seq<string> {
    Map(ClassEntry(components, component, select)(cls), RowTextOf(name))
  }

  /** The rows of one component, for its selected classes in simple-name order. */
  function ComponentRows<T(==)>(components: seq<T>, name: T -> ComponentName, select: T -> seq<ClassInfo>,
                                component: T): seq<string> {
    Map(ComponentEntries(components, component, select), RowTextOf(name))
  }

  /** The rows of the given components' blocks, in the given order. */
  function RowsOver<T(==)>(components: seq<T>, name: T -> ComponentName, select: T -> seq<ClassInfo>,
                           ordered: seq<T>): seq<string> {
    Map(FlatMap(ordered, ComponentBlock(components, select)), RowTextOf(name))
  }

  /** The text the report appends to its destination. */
  function Rows<T(==)>(components: seq<T>, name: T -> ComponentName, select: T -> seq<ClassInfo>): seq<string> {
    RowsOver(components, name, select, SortBy(components, NameKey(name)))
  }

  /** One iteration of write's outer loop appends the rows of the next component. */
  lemma RowsOverStep<T>(components: seq<T>, name: T -> ComponentName, select: T -> seq<ClassInfo>,
                            ordered: seq<T>, i: nat, base: seq<string>)
    requires i < |ordered|
    ensures base + RowsOver(components, name, select, ordered[..i])
              + ComponentRows(components, name, select, ordered[i])
            == base + RowsOver(components, name, select, ordered[..i + 1])
  {
    var block := ComponentBlock(components, select);
    FlatMapStep(ordered, block, i);
    MapAppend(FlatMap(ordered[..i], block), block(ordered[i]), RowTextOf(name));
  }

  /** The entry of a class: present exactly when some other component shares the object. */
  lemma ClassEntryMembers<T>(components: seq<T>, component: T, select: T -> seq<ClassInfo>, cls: ClassInfo, e: Entry<T>)
    ensures e in ClassEntry(components, component, select)(cls) <==>
              e == Entry(component, cls, Others(components, component, select, cls)) && e.others != []
  {
  }

  /** The entries of a component are its selected classes that another component also selects. */
  lemma ComponentEntriesMembers<T>(components: seq<T>, component: T, select: T -> seq<ClassInfo>, e: Entry<T>)
    ensures e in ComponentEntries(components, component, select) <==>
              e.component == component && e.cls in select(component)
              && e.others == Others(components, component, select, e.cls) && e.others != []
  {
    var classes := SortBy(select(component), SimpleName);
    var entry := ClassEntry(components, component, select);
    FlatMapMembers(classes, entry, e);
    SortByMembers(select(component), SimpleName);
    if e in ComponentEntries(components, component, select) {
      var cls :| cls in classes && e in entry(cls);
      ClassEntryMembers(components, component, select, cls, e);
    }
    if e.component == component && e.cls in select(component)
       && e.others == Others(components, component, select, e.cls) && e.others != [] {
      ClassEntryMembers(components, component, select, e.cls, e);
      assert e.cls in classes && e in entry(e.cls);
    }
  }

  /** The report's entries: exactly the pairs of a component of the collection and a class
      it selects that some other instance of the collection selects too, with those others. */
  lemma EntriesMembers<T>(components: seq<T>, name: T -> ComponentName, select: T -> seq<ClassInfo>, e: Entry<T>)
    ensures e in Entries(components, name, select) <==>
              e.component in components && e.cls in select(e.component)
              && e.others == Others(components, e.component, select, e.cls) && e.others != []
  {
    var sorted := SortBy(components, NameKey(name));
    var block := ComponentBlock(components, select);
    FlatMapMembers(sorted, block, e);
    SortByMembers(components, NameKey(name));
    if e in Entries(components, name, select) {
      var c :| c in sorted && e in block(c);
      ComponentEntriesMembers(components, c, select, e);
    }
    ComponentEntriesMembers(components, e.component, select, e);
    if e.component in components && e.cls in select(e.component)
       && e.others == Others(components, e.component, select, e.cls) && e.others != [] {
      assert e.component in sorted && e in block(e.component);
    }
  }

  /** Sharing is symmetric: each component listed in an entry has its own entry for the same
      object, and that entry lists the first component. */
  lemma SharingSymmetric<T>(components: seq<T>, name: T -> ComponentName, select: T -> seq<ClassInfo>,
                            e: Entry<T>, other: T)
    requires e in Entries(components, name, select) && other in e.others
    ensures var back := Others(components, other, select, e.cls);
            Entry(other, e.cls, back) in Entries(components, name, select) && e.component in back
  {
    EntriesMembers(components, name, select, e);
    OthersMembers(components, e.component, select, e.cls);
    OthersMembers(components, other, select, e.cls);
    EntriesMembers(components, name, select, Entry(other, e.cls, Others(components, other, select, e.cls)));
  }

  /** A row per entry, in the same order. */
  lemma RowsAt<T>(components: seq<T>, name: T -> ComponentName, select: T -> seq<ClassInfo>)
    ensures var entries := Entries(components, name, select);
            |Rows(components, name, select)| == |entries|
            && forall i | 0 <= i < |entries| ::
                 Rows(components, name, select)[i]
                 == Row(name(entries[i].component).value, entries[i].cls.simpleName, OtherNames(entries[i].others, name))
  {
    MapAt(Entries(components, name, select), RowTextOf(name));
  }

  /** The report is empty exactly when no two different instances of the collection select
      the same ClassInfo object. */
  lemma NoSharingNoRows<T>(components: seq<T>, name: T -> ComponentName, select: T -> seq<ClassInfo>)
    ensures Rows(components, name, select) == [] <==>
              forall a, b, cls | a in components && b in components && cls in select(a) && cls in select(b) :: a == b
  {
    var entries := Entries(components, name, select);
    RowsAt(components, name, select);
    if entries != [] {
      var e := entries[0];
      EntriesMembers(components, name, select, e);
      OthersMembers(components, e.component, select, e.cls);
      var b := e.others[0];
      assert b in e.others;
      assert e.component in components && b in components && e.cls in select(e.component) && e.cls in select(b);
    }
    forall a, b, cls | a in components && b in components && cls in select(a) && cls in select(b) && entries == []
      ensures a == b
    {
      if a != b {
        var others := Others(components, a, select, cls);
        OthersMembers(components, a, select, cls);
        assert b in others;
        EntriesMembers(components, name, select, Entry(a, cls, others));
      }
    }
  }

  /** The component-name and simple-name keys of an entry. */
  function EntryComponentKey<T>(name: T -> ComponentName): Entry<T> -> string {
    (e: Entry<T>) => name(e.component).value
  }

  function EntryClassKey<T>(): Entry<T> -> string {
    (e: Entry<T>) => e.cls.simpleName
  }

  /** A component's entries are in ascending simple-name order. */
  lemma ComponentEntriesSorted<T>(components: seq<T>, component: T, select: T -> seq<ClassInfo>)
    ensures SortedBy(ComponentEntries(components, component, select), EntryClassKey())
  {
    var classes := SortBy(select(component), SimpleName);
    var entry := ClassEntry(components, component, select);
    SortBySorted(select(component), SimpleName);
    forall cls, e | cls in classes && e in entry(cls)
      ensures EntryClassKey()(e) == SimpleName(cls)
    {
      ClassEntryMembers(components, component, select, cls, e);
    }
    FlatMapSorted(classes, entry, SimpleName, EntryClassKey());
  }

  /** Whatever the collection, with repeated instances or repeated names, the rows come in
      ascending component-name order. */
  lemma EntriesByName<T>(components: seq<T>, name: T -> ComponentName, select: T -> seq<ClassInfo>)
    ensures SortedBy(Entries(components, name, select), EntryComponentKey(name))
  {
    var sorted := SortBy(components, NameKey(name));
    var block := ComponentBlock(components, select);
    SortBySorted(components, NameKey(name));
    forall c, e | c in sorted && e in block(c)
      ensures EntryComponentKey(name)(e) == NameKey(name)(c)
    {
      ComponentEntriesMembers(components, c, select, e);
    }
    FlatMapSorted(sorted, block, NameKey(name), EntryComponentKey(name));
  }

  /** With distinct instances of distinct names, the rows come in ascending component-name
      order and, within one component, in ascending simple-name order. */
  lemma EntriesOrdered<T>(components: seq<T>, name: T -> ComponentName, select: T -> seq<ClassInfo>)
    requires NoDuplicates(components) && KeyInjective(components, NameKey(name))
    ensures LexSortedBy(Entries(components, name, select), EntryComponentKey(name), EntryClassKey())
  {
    var sorted := SortBy(components, NameKey(name));
    var block := ComponentBlock(components, select);
    SortBySorted(components, NameKey(name));
    SortByDistinct(components, NameKey(name));
    SortedStrictly(sorted, NameKey(name));
    forall c, e | c in sorted && e in block(c)
      ensures EntryComponentKey(name)(e) == NameKey(name)(c)
    {
      ComponentEntriesMembers(components, c, select, e);
    }
    forall c | c in sorted
      ensures SortedBy(block(c), EntryClassKey())
    {
      ComponentEntriesSorted(components, c, select);
    }
    FlatMapLexSorted(sorted, block, NameKey(name), EntryComponentKey(name), EntryClassKey());
  }

  /** The third field lists the others' names in ascending order, one per other component
      (a permutation of their names), and splitting it on ' ' gives them back: a
      ComponentName never holds a space. */
  lemma OtherNamesDecode<T>(others: seq<T>, name: T -> ComponentName)
    requires others != []
    ensures var names := SortBy(Map(others, NameKey(name)), Identity);
            Split(OtherNames(others, name), ' ') == names
            && SortedBy(names, Identity)
            && multiset(names) == multiset(Map(others, NameKey(name)))
  {
    var unsorted := Map(others, NameKey(name));
    var names := SortBy(unsorted, Identity);
    MapAt(others, NameKey(name));
    SortByMembers(unsorted, Identity);
    SortBySorted(unsorted, Identity);
    SortByPermutes(unsorted, Identity);
    forall i | 0 <= i < |names|
      ensures ' ' !in names[i]
    {
      assert names[i] in unsorted;
      var k :| 0 <= k < |unsorted| && unsorted[k] == names[i];
      assert names[i] == name(others[k]).value;
    }
    SplitJoin(names, ' ');
  }

  /** The names of two permutations of the same components, sorted, coincide. */
  lemma OtherNamesPermutation<T>(others1: seq<T>, others2: seq<T>, name: T -> ComponentName)
    requires multiset(others1) == multiset(others2)
    ensures OtherNames(others1, name) == OtherNames(others2, name)
  {
    var names1 := Map(others1, NameKey(name));
    MapPermutation(others1, others2, NameKey(name));
    assert KeyInjective(names1, Identity);
    SortByUnique(names1, Map(others2, NameKey(name)), Identity);
  }

  /** The rows of one class do not depend on the order of the collection. */
  lemma ClassRowsPermutation<T>(components1: seq<T>, components2: seq<T>, name: T -> ComponentName,
                                select: T -> seq<ClassInfo>, component: T, cls: ClassInfo)
    requires multiset(components1) == multiset(components2)
    ensures Map(ClassEntry(components1, component, select)(cls), RowTextOf(name))
            == Map(ClassEntry(components2, component, select)(cls), RowTextOf(name))
  {
    var p := SharesClass(component, select, cls);
    var others1 := Others(components1, component, select, cls);
    var others2 := Others(components2, component, select, cls);
    FilterPermutation(components1, components2, p);
    assert |others1| == |multiset(others1)| == |multiset(others2)| == |others2|;
    OtherNamesPermutation(others1, others2, name);
  }

  /** Hence the report does not depend on the collection's iteration order, as long as no
      two components share a name (between those the stable sort keeps the input order). */
  lemma RowsPermutation<T>(components1: seq<T>, components2: seq<T>, name: T -> ComponentName,
                           select: T -> seq<ClassInfo>)
    requires multiset(components1) == multiset(components2)
    requires KeyInjective(components1, NameKey(name))
    ensures Rows(components1, name, select) == Rows(components2, name, select)
  {
    var text := RowTextOf(name);
    SortByUnique(components1, components2, NameKey(name));
    var sorted := SortBy(components1, NameKey(name));
    forall c | c in sorted
      ensures Map(ComponentBlock(components1, select)(c), text) == Map(ComponentBlock(components2, select)(c), text)
    {
      var classes := SortBy(select(c), SimpleName);
      forall cls | cls in classes
        ensures Map(ClassEntry(components1, c, select)(cls), text) == Map(ClassEntry(components2, c, select)(cls), text)
      {
        ClassRowsPermutation(components1, components2, name, select, c, cls);
      }
      FlatMapMapCongruent(classes, ClassEntry(components1, c, select), ClassEntry(components2, c, select), text);
    }
    FlatMapMapCongruent(sorted, ComponentBlock(components1, select), ComponentBlock(components2, select), text);
  }

  /** Only the components' names and selections count: two ways of naming and selecting
      that agree on every component of the collection give the same report. */
  lemma RowsCongruent<T>(components: seq<T>, name1: T -> ComponentName, name2: T -> ComponentName,
                         select1: T -> seq<ClassInfo>, select2: T -> seq<ClassInfo>)
    requires forall c | c in components :: name1(c) == name2(c) && select1(c) == select2(c)
    ensures Rows(components, name1, select1) == Rows(components, name2, select2)
  {
    SortByCongruent(components, NameKey(name1), NameKey(name2));
    EntriesCongruent(components, name1, name2, select1, select2);
    var entries := Entries(components, name2, select2);
    forall e | e in entries
      ensures RowText(e, name1) == RowText(e, name2)
    {
      EntriesMembers(components, name2, select2, e);
      OthersMembers(components, e.component, select2, e.cls);
      MapCongruent(e.others, NameKey(name1), NameKey(name2));
    }
    MapCongruent(entries, RowTextOf(name1), RowTextOf(name2));
  }

  /** The entries do not depend on how the components are named beyond their order. */
  lemma EntriesCongruent<T>(components: seq<T>, name1: T -> ComponentName, name2: T -> ComponentName,
                            select1: T -> seq<ClassInfo>, select2: T -> seq<ClassInfo>)
    requires forall c | c in components :: name1(c) == name2(c) && select1(c) == select2(c)
    requires SortBy(components, NameKey(name1)) == SortBy(components, NameKey(name2))
    ensures Entries(components, name1, select1) == Entries(components, name2, select2)
  {
    var sorted := SortBy(components, NameKey(name1));
    SortByMembers(components, NameKey(name1));
    forall c | c in sorted
      ensures ComponentBlock(components, select1)(c) == ComponentBlock(components, select2)(c)
    {
      var classes := SortBy(select1(c), SimpleName);
      forall cls | cls in classes
        ensures ClassEntry(components, c, select1)(cls) == ClassEntry(components, c, select2)(cls)
      {
        FilterCongruent(components, SharesClass(c, select1, cls), SharesClass(c, select2, cls));
      }
      FlatMapCongruent(classes, ClassEntry(components, c, select1), ClassEntry(components, c, select2));
    }
    FlatMapCongruent(sorted, ComponentBlock(components, select1), ComponentBlock(components, select2));
  }

  /** The row of a class, worked out. */
  lemma ClassRowsValue<T>(components: seq<T>, name: T -> ComponentName, select: T -> seq<ClassInfo>,
                          component: T, cls: ClassInfo)
    ensures var others := Others(components, component, select, cls);
            ClassRows(components, name, select, component, cls)
            == if others == [] then [] else [Row(name(component).value, cls.simpleName, OtherNames(others, name))]
  {
    var others := Others(components, component, select, cls);
    if others != [] {
      var e := Entry(component, cls, others);
      assert Map([e], RowTextOf(name)) == [RowText(e, name)] by {
        MapAt([e], RowTextOf(name));
      }
    }
  }

  /** The others among four components, worked out. */
  lemma OthersOfFour<T>(a: T, b: T, c: T, d: T, component: T, select: T -> seq<ClassInfo>, cls: ClassInfo)
    ensures var p := SharesClass(component, select, cls);
            Others([a, b, c, d], component, select, cls)
            == (if p(a) then [a] else []) + (if p(b) then [b] else []) + (if p(c) then [c] else []) + (if p(d) then [d] else [])
  {
    var p := SharesClass(component, select, cls);
    assert [a, b, c, d][1..] == [b, c, d];
    assert [b, c, d][1..] == [c, d];
    assert [c, d][1..] == [d];
    assert [d][1..] == [];
    assert Filter([d], p) == (if p(d) then [d] else []);
    assert Filter([c, d], p) == (if p(c) then [c] else []) + (if p(d) then [d] else []);
    assert Filter([b, c, d], p) == (if p(b) then [b] else []) + Filter([c, d], p);
    assert Filter([a, b, c, d], p) == (if p(a) then [a] else []) + Filter([b, c, d], p);
  }

  /** The third field for one other component is its name ... */
  lemma OtherNamesOne<T>(x: T, name: T -> ComponentName)
    ensures OtherNames([x], name) == name(x).value
  {
    var u := name(x).value;
    assert Map([x], NameKey(name)) == [u] by {
      MapAt([x], NameKey(name));
    }
    assert [u][1..] == [];
    assert SortBy([u], Identity) == Insert(u, [], Identity) == [u];
  }

  /** ... and for two, their names in ascending order with one space between. */
  lemma OtherNamesTwo<T>(x: T, y: T, name: T -> ComponentName)
    requires Less(name(x).value, name(y).value)
    ensures OtherNames([x, y], name) == name(x).value + " " + name(y).value
    ensures OtherNames([y, x], name) == name(x).value + " " + name(y).value
  {
    var u := name(x).value;
    var v := name(y).value;
    MapAt([x, y], NameKey(name));
    MapAt([y, x], NameKey(name));
    assert Map([x, y], NameKey(name)) == [u, v];
    assert Map([y, x], NameKey(name)) == [v, u];
    Strings.CompareToAntisymmetric(u, v);
    assert [u, v][1..] == [v];
    assert [v, u][1..] == [u];
    assert [u][1..] == [] && [v][1..] == [];
    assert SortBy([v], Identity) == Insert(v, [], Identity) == [v];
    assert SortBy([u], Identity) == Insert(u, [], Identity) == [u];
    assert Insert(u, [v], Identity) == [u, v];
    assert SortBy([u, v], Identity) == [u, v];
    assert Insert(v, [u], Identity) == [u] + Insert(v, [], Identity) == [u, v];
    assert SortBy([v, u], Identity) == [u, v];
    assert Join(" ", [u, v]) == u + " " + v;
  }

  /** The row of a class no other component selects is absent ... */
  lemma ClassRowsNone<T>(components: seq<T>, name: T -> ComponentName, select: T -> seq<ClassInfo>,
                         component: T, cls: ClassInfo)
    requires Others(components, component, select, cls) == []
    ensures ClassRows(components, name, select, component, cls) == []
  {
    ClassRowsValue(components, name, select, component, cls);
  }

  /** ... the row of a class one other component selects names that component ... */
  lemma ClassRowsOne<T>(components: seq<T>, name: T -> ComponentName, select: T -> seq<ClassInfo>,
                        component: T, cls: ClassInfo, x: T)
    requires Others(components, component, select, cls) == [x]
    ensures ClassRows(components, name, select, component, cls) == [Row(name(component).value, cls.simpleName, name(x).value)]
  {
    ClassRowsValue(components, name, select, component, cls);
    OtherNamesOne(x, name);
  }

  /** ... and the row of a class two others select names both, in ascending order. */
  lemma ClassRowsTwo<T>(components: seq<T>, name: T -> ComponentName, select: T -> seq<ClassInfo>,
                        component: T, cls: ClassInfo, x: T, y: T)
    requires Others(components, component, select, cls) == [x, y] || Others(components, component, select, cls) == [y, x]
    requires Less(name(x).value, name(y).value)
    ensures ClassRows(components, name, select, component, cls)
            == [Row(name(component).value, cls.simpleName, name(x).value + " " + name(y).value)]
  {
    ClassRowsValue(components, name, select, component, cls);
    OtherNamesTwo(x, y, name);
  }

  /** A collection already in name order is reported in its own order. */
  lemma RowsOfOrdered<T>(components: seq<T>, name: T -> ComponentName, select: T -> seq<ClassInfo>)
    requires SortedBy(components, NameKey(name))
    ensures Rows(components, name, select) == RowsOver(components, name, select, components)
  {
    SortByOfSorted(components, NameKey(name));
  }

  /** A component's rows are those of its first class followed by those of the rest ... */
  lemma ClassRowsOverCons<T>(components: seq<T>, name: T -> ComponentName, select: T -> seq<ClassInfo>,
                             component: T, cls: ClassInfo, classes: seq<ClassInfo>)
    ensures ClassRowsOver(components, name, select, component, [cls] + classes)
            == ClassRows(components, name, select, component, cls) + ClassRowsOver(components, name, select, component, classes)
  {
    MapFlatMapCons(cls, classes, ClassEntry(components, component, select), RowTextOf(name));
  }

  /** ... and the report's rows are those of its first component followed by those of the rest. */
  lemma RowsOverCons<T>(components: seq<T>, name: T -> ComponentName, select: T -> seq<ClassInfo>,
                        component: T, ordered: seq<T>)
    ensures RowsOver(components, name, select, [component] + ordered)
            == ComponentRows(components, name, select, component) + RowsOver(components, name, select, ordered)
  {
    MapFlatMapCons(component, ordered, ComponentBlock(components, select), RowTextOf(name));
  }

  /** The rows of a component whose selection sorts to [x, y, z], [x, y] or [x]: the rows of
      those classes in turn. */
  lemma ComponentRowsOfThree<T>(components: seq<T>, name: T -> ComponentName, select: T -> seq<ClassInfo>,
                                component: T, x: ClassInfo, y: ClassInfo, z: ClassInfo)
    requires SortBy(select(component), SimpleName) == [x, y, z]
    ensures ComponentRows(components, name, select, component)
            == ClassRows(components, name, select, component, x)
               + (ClassRows(components, name, select, component, y) + ClassRows(components, name, select, component, z))
  {
    assert [x, y, z] == [x] + [y, z];
    ClassRowsOverCons(components, name, select, component, x, [y, z]);
    ClassRowsOverTwo(components, name, select, component, y, z);
  }

  lemma ComponentRowsOfTwo<T>(components: seq<T>, name: T -> ComponentName, select: T -> seq<ClassInfo>,
                              component: T, x: ClassInfo, y: ClassInfo)
    requires SortBy(select(component), SimpleName) == [x, y]
    ensures ComponentRows(components, name, select, component)
            == ClassRows(components, name, select, component, x) + ClassRows(components, name, select, component, y)
  {
    ClassRowsOverTwo(components, name, select, component, x, y);
  }

  lemma ComponentRowsOfOne<T>(components: seq<T>, name: T -> ComponentName, select: T -> seq<ClassInfo>,
                              component: T, x: ClassInfo)
    requires SortBy(select(component), SimpleName) == [x]
    ensures ComponentRows(components, name, select, component) == ClassRows(components, name, select, component, x)
  {
    ClassRowsOverOne(components, name, select, component, x);
  }

  lemma ClassRowsOverTwo<T>(components: seq<T>, name: T -> ComponentName, select: T -> seq<ClassInfo>,
                            component: T, x: ClassInfo, y: ClassInfo)
    ensures ClassRowsOver(components, name, select, component, [x, y])
            == ClassRows(components, name, select, component, x) + ClassRows(components, name, select, component, y)
  {
    assert [x, y] == [x] + [y];
    ClassRowsOverCons(components, name, select, component, x, [y]);
    ClassRowsOverOne(components, name, select, component, y);
  }

  lemma ClassRowsOverOne<T>(components: seq<T>, name: T -> ComponentName, select: T -> seq<ClassInfo>,
                            component: T, x: ClassInfo)
    ensures ClassRowsOver(components, name, select, component, [x]) == ClassRows(components, name, select, component, x)
  {
    assert [x] == [x] + [];
    ClassRowsOverCons(components, name, select, component, x, []);
  }

  /** The report on four components already in name order: their rows in turn. */
  lemma RowsOfFour<T>(a: T, b: T, c: T, d: T, name: T -> ComponentName, select: T -> seq<ClassInfo>)
    requires SortedBy([a, b, c, d], NameKey(name))
    ensures var cs := [a, b, c, d];
            Rows(cs, name, select)
            == ComponentRows(cs, name, select, a)
               + (ComponentRows(cs, name, select, b) + (ComponentRows(cs, name, select, c) + ComponentRows(cs, name, select, d)))
  {
    var cs := [a, b, c, d];
    RowsOfOrdered(cs, name, select);
    assert RowsOver(cs, name, select, [c, d])
           == ComponentRows(cs, name, select, c) + ComponentRows(cs, name, select, d) by {
      assert [c, d] == [c] + [d] && [d] == [d] + [];
      RowsOverCons(cs, name, select, c, [d]);
      RowsOverCons(cs, name, select, d, []);
    }
    assert RowsOver(cs, name, select, [b, c, d])
           == ComponentRows(cs, name, select, b) + RowsOver(cs, name, select, [c, d]) by {
      assert [b, c, d] == [b] + [c, d];
      RowsOverCons(cs, name, select, b, [c, d]);
    }
    assert cs == [a] + [b, c, d];
    RowsOverCons(cs, name, select, a, [b, c, d]);
  }

  /** The destination file, opened in append mode: the pieces written to it so far, whose
      concatenation is its text (an absent file is the empty sequence). */
  class ReportFile {
    var content: seq<string>

    constructor (content: seq<string>)
      ensures this.content == content
    {
      this.content := content;
    }
  }

  /** The engine, fixed at construction to a collection of components, the components'
      name() and a selector (actions() or models()). */
  class SharedClassesReport<T(==)> {
    const components: seq<T>
    const name: T -> ComponentName
    const classesExtractor: T -> seq<ClassInfo>

    constructor (components: seq<T>, name: T -> ComponentName, classesExtractor: T -> seq<ClassInfo>)
      ensures this.components == components && this.name == name
      ensures this.classesExtractor == classesExtractor
    {
      this.components := components;
      this.name := name;
      this.classesExtractor := classesExtractor;
    }

    /** write(csv): the earlier content stays, and the report's rows follow it. */
    method Write(csv: ReportFile)
      modifies csv
      ensures csv.content == old(csv.content) + Rows(components, name, classesExtractor)
    {
      var sorted := SortBy(components, NameKey(name));
      WriteComponents(csv, sorted);
    }

    /** write's outer loop over the components in the given order. */
    method WriteComponents(csv: ReportFile, sorted: seq<T>)
      modifies csv
      ensures csv.content == old(csv.content) + RowsOver(components, name, classesExtractor, sorted)
    {
      for i := 0 to |sorted|
        invariant csv.content == old(csv.content) + RowsOver(components, name, classesExtractor, sorted[..i])
      {
        WriteComponent(csv, sorted[i]);
        RowsOverStep(components, name, classesExtractor, sorted, i, old(csv.content));
      }
      assert sorted[..|sorted|] == sorted;
    }

    /** The body of write's outer loop: the rows of one component, its classes sorted by simple name. */
    method WriteComponent(csv: ReportFile, component: T)
      modifies csv
      ensures csv.content == old(csv.content) + ComponentRows(components, name, classesExtractor, component)
    {
      var classes := SortBy(classesExtractor(component), SimpleName);
      for j := 0 to |classes|
        invariant csv.content == old(csv.content) + ClassRowsOver(components, name, classesExtractor, component, classes[..j])
      {
        ClassRowsOverStep(components, name, classesExtractor, component, classes, j, old(csv.content));
        var action := classes[j];
        var otherComponents := Others(components, component, classesExtractor, action);
        if otherComponents != [] {
          var componentNames := OtherNames(otherComponents, name);
          csv.content := csv.content + [Row(name(component).value, action.simpleName, componentNames)];
        }
      }
      assert classes[..|classes|] == classes;
    }
  }
}
