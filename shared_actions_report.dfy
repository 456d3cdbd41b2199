/**
 * SharedActionsReport: the shared-classes report over the components' actions.
 */
module SharedActions {
  import opened Strings
  import opened Sequences
  import opened ComponentNames
  import opened ClassInfos
  import opened SharedReport

  /** A component as this report sees it: its name and its actions. */
  class Component {
    const name: ComponentName
    const actions: seq<ClassInfo>

    constructor (name: ComponentName, actions: seq<ClassInfo>)
      ensures this.name == name && this.actions == actions
    {
      this.name := name;
      this.actions := actions;
    }
  }

  /** Component::name */
  function NameOf(c: Component): ComponentName {
    c.name
  }

  /** Component::actions, the selector handed to the engine. */
  function ActionsOf(c: Component): seq<ClassInfo> {
    c.actions
  }

  class SharedActionsReport {
    const delegate: SharedClassesReport<Component>

    /** The delegate works on the components' names and actions. */
    ghost predicate Valid() {
      delegate.name == NameOf && delegate.classesExtractor == ActionsOf
    }

    constructor (components: seq<Component>)
      ensures Valid() && delegate.components == components
    {
      delegate := new SharedClassesReport(components, NameOf, ActionsOf);
    }

    /** write(csv): appends the rows of the engine over the components' actions. */
    method Write(csv: ReportFile)
      requires Valid()
      modifies csv
      ensures csv.content == old(csv.content) + Rows(delegate.components, NameOf, ActionsOf)
    {
      delegate.Write(csv);
    }
  }

  /** Four components a, b, c, d with the actions Reset, Update, Delete; Create, Update;
      Create, Update, Delete; and Terminate, every action one object. */
  ghost predicate Scenario(a: Component, b: Component, c: Component, d: Component,
                           create: ClassInfo, update: ClassInfo, delete: ClassInfo,
                           reset: ClassInfo, terminate: ClassInfo)
  {
    && create.simpleName == "Create" && update.simpleName == "Update" && delete.simpleName == "Delete"
    && reset.simpleName == "Reset" && terminate.simpleName == "Terminate"
    && create != update && create != delete && create != reset && create != terminate
    && update != delete && update != reset && update != terminate
    && delete != reset && delete != terminate && reset != terminate
    && a != b && a != c && a != d && b != c && b != d && c != d
    && a.name.value == "a" && a.actions == [reset, update, delete]
    && b.name.value == "b" && b.actions == [create, update]
    && c.name.value == "c" && c.actions == [create, update, delete]
    && d.name.value == "d" && d.actions == [terminate]
  }

  /** The row of each action of each component, worked out. */
  lemma RowADelete(a: Component, b: Component, c: Component, d: Component,
                   create: ClassInfo, update: ClassInfo, delete: ClassInfo, reset: ClassInfo, terminate: ClassInfo)
    requires Scenario(a, b, c, d, create, update, delete, reset, terminate)
    ensures ClassRows([a, b, c, d], NameOf, ActionsOf, a, delete) == [Row("a", "Delete", "c")]
  {
    OthersOfFour(a, b, c, d, a, ActionsOf, delete);
    var p := SharesClass(a, ActionsOf, delete);
    assert delete !in ActionsOf(b) && delete in ActionsOf(c) && delete !in ActionsOf(d);
    assert !p(a) && !p(b) && p(c) && !p(d);
    ClassRowsOne([a, b, c, d], NameOf, ActionsOf, a, delete, c);
  }

  lemma RowAReset(a: Component, b: Component, c: Component, d: Component,
                  create: ClassInfo, update: ClassInfo, delete: ClassInfo, reset: ClassInfo, terminate: ClassInfo)
    requires Scenario(a, b, c, d, create, update, delete, reset, terminate)
    ensures ClassRows([a, b, c, d], NameOf, ActionsOf, a, reset) == []
  {
    OthersOfFour(a, b, c, d, a, ActionsOf, reset);
    var p := SharesClass(a, ActionsOf, reset);
    assert reset !in ActionsOf(b) && reset !in ActionsOf(c) && reset !in ActionsOf(d);
    assert !p(a) && !p(b) && !p(c) && !p(d);
    ClassRowsNone([a, b, c, d], NameOf, ActionsOf, a, reset);
  }

  lemma RowAUpdate(a: Component, b: Component, c: Component, d: Component,
                   create: ClassInfo, update: ClassInfo, delete: ClassInfo, reset: ClassInfo, terminate: ClassInfo)
    requires Scenario(a, b, c, d, create, update, delete, reset, terminate)
    ensures ClassRows([a, b, c, d], NameOf, ActionsOf, a, update) == [Row("a", "Update", "b c")]
  {
    OthersOfFour(a, b, c, d, a, ActionsOf, update);
    var p := SharesClass(a, ActionsOf, update);
    assert update in ActionsOf(b) && update in ActionsOf(c) && update !in ActionsOf(d);
    assert !p(a) && p(b) && p(c) && !p(d);
    assert Less("b", "c");
    ClassRowsTwo([a, b, c, d], NameOf, ActionsOf, a, update, b, c);
    assert "b" + " " + "c" == "b c";
  }

  lemma RowBCreate(a: Component, b: Component, c: Component, d: Component,
                   create: ClassInfo, update: ClassInfo, delete: ClassInfo, reset: ClassInfo, terminate: ClassInfo)
    requires Scenario(a, b, c, d, create, update, delete, reset, terminate)
    ensures ClassRows([a, b, c, d], NameOf, ActionsOf, b, create) == [Row("b", "Create", "c")]
  {
    OthersOfFour(a, b, c, d, b, ActionsOf, create);
    var p := SharesClass(b, ActionsOf, create);
    assert create !in ActionsOf(a) && create in ActionsOf(c) && create !in ActionsOf(d);
    assert !p(a) && !p(b) && p(c) && !p(d);
    ClassRowsOne([a, b, c, d], NameOf, ActionsOf, b, create, c);
  }

  lemma RowBUpdate(a: Component, b: Component, c: Component, d: Component,
                   create: ClassInfo, update: ClassInfo, delete: ClassInfo, reset: ClassInfo, terminate: ClassInfo)
    requires Scenario(a, b, c, d, create, update, delete, reset, terminate)
    ensures ClassRows([a, b, c, d], NameOf, ActionsOf, b, update) == [Row("b", "Update", "a c")]
  {
    OthersOfFour(a, b, c, d, b, ActionsOf, update);
    var p := SharesClass(b, ActionsOf, update);
    assert update in ActionsOf(a) && update in ActionsOf(c) && update !in ActionsOf(d);
    assert p(a) && !p(b) && p(c) && !p(d);
    assert Less("a", "c");
    ClassRowsTwo([a, b, c, d], NameOf, ActionsOf, b, update, a, c);
    assert "a" + " " + "c" == "a c";
  }

  lemma RowCCreate(a: Component, b: Component, c: Component, d: Component,
                   create: ClassInfo, update: ClassInfo, delete: ClassInfo, reset: ClassInfo, terminate: ClassInfo)
    requires Scenario(a, b, c, d, create, update, delete, reset, terminate)
    ensures ClassRows([a, b, c, d], NameOf, ActionsOf, c, create) == [Row("c", "Create", "b")]
  {
    OthersOfFour(a, b, c, d, c, ActionsOf, create);
    var p := SharesClass(c, ActionsOf, create);
    assert create !in ActionsOf(a) && create in ActionsOf(b) && create !in ActionsOf(d);
    assert !p(a) && p(b) && !p(c) && !p(d);
    ClassRowsOne([a, b, c, d], NameOf, ActionsOf, c, create, b);
  }

  lemma RowCDelete(a: Component, b: Component, c: Component, d: Component,
                   create: ClassInfo, update: ClassInfo, delete: ClassInfo, reset: ClassInfo, terminate: ClassInfo)
    requires Scenario(a, b, c, d, create, update, delete, reset, terminate)
    ensures ClassRows([a, b, c, d], NameOf, ActionsOf, c, delete) == [Row("c", "Delete", "a")]
  {
    OthersOfFour(a, b, c, d, c, ActionsOf, delete);
    var p := SharesClass(c, ActionsOf, delete);
    assert delete in ActionsOf(a) && delete !in ActionsOf(b) && delete !in ActionsOf(d);
    assert p(a) && !p(b) && !p(c) && !p(d);
    ClassRowsOne([a, b, c, d], NameOf, ActionsOf, c, delete, a);
  }

  lemma RowCUpdate(a: Component, b: Component, c: Component, d: Component,
                   create: ClassInfo, update: ClassInfo, delete: ClassInfo, reset: ClassInfo, terminate: ClassInfo)
    requires Scenario(a, b, c, d, create, update, delete, reset, terminate)
    ensures ClassRows([a, b, c, d], NameOf, ActionsOf, c, update) == [Row("c", "Update", "a b")]
  {
    OthersOfFour(a, b, c, d, c, ActionsOf, update);
    var p := SharesClass(c, ActionsOf, update);
    assert update in ActionsOf(a) && update in ActionsOf(b) && update !in ActionsOf(d);
    assert p(a) && p(b) && !p(c) && !p(d);
    assert Less("a", "b");
    ClassRowsTwo([a, b, c, d], NameOf, ActionsOf, c, update, a, b);
    assert "a" + " " + "b" == "a b";
  }

  lemma RowDTerminate(a: Component, b: Component, c: Component, d: Component,
                      create: ClassInfo, update: ClassInfo, delete: ClassInfo, reset: ClassInfo, terminate: ClassInfo)
    requires Scenario(a, b, c, d, create, update, delete, reset, terminate)
    ensures ClassRows([a, b, c, d], NameOf, ActionsOf, d, terminate) == []
  {
    OthersOfFour(a, b, c, d, d, ActionsOf, terminate);
    var p := SharesClass(d, ActionsOf, terminate);
    assert terminate !in ActionsOf(a) && terminate !in ActionsOf(b) && terminate !in ActionsOf(c);
    assert !p(a) && !p(b) && !p(c) && !p(d);
    ClassRowsNone([a, b, c, d], NameOf, ActionsOf, d, terminate);
  }

  /** The rows of each component: its actions in simple-name order, each with its row. */
  lemma RowsOfA(a: Component, b: Component, c: Component, d: Component,
                create: ClassInfo, update: ClassInfo, delete: ClassInfo, reset: ClassInfo, terminate: ClassInfo)
    requires Scenario(a, b, c, d, create, update, delete, reset, terminate)
    ensures ComponentRows([a, b, c, d], NameOf, ActionsOf, a) == [Row("a", "Delete", "c"), Row("a", "Update", "b c")]
  {
    assert SortBy(ActionsOf(a), SimpleName) == [delete, reset, update] by {
      SortByShort(reset, update, delete, SimpleName);
      InsertShort(update, delete, delete, SimpleName);
      InsertShort(reset, delete, update, SimpleName);
      InsertShort(reset, update, update, SimpleName);
    }
    ComponentRowsOfThree([a, b, c, d], NameOf, ActionsOf, a, delete, reset, update);
    RowADelete(a, b, c, d, create, update, delete, reset, terminate);
    RowAReset(a, b, c, d, create, update, delete, reset, terminate);
    RowAUpdate(a, b, c, d, create, update, delete, reset, terminate);
  }

  lemma RowsOfB(a: Component, b: Component, c: Component, d: Component,
                create: ClassInfo, update: ClassInfo, delete: ClassInfo, reset: ClassInfo, terminate: ClassInfo)
    requires Scenario(a, b, c, d, create, update, delete, reset, terminate)
    ensures ComponentRows([a, b, c, d], NameOf, ActionsOf, b) == [Row("b", "Create", "c"), Row("b", "Update", "a c")]
  {
    assert SortBy(ActionsOf(b), SimpleName) == [create, update] by {
      SortByShort(create, create, update, SimpleName);
      InsertShort(create, update, update, SimpleName);
    }
    ComponentRowsOfTwo([a, b, c, d], NameOf, ActionsOf, b, create, update);
    RowBCreate(a, b, c, d, create, update, delete, reset, terminate);
    RowBUpdate(a, b, c, d, create, update, delete, reset, terminate);
  }

  lemma RowsOfC(a: Component, b: Component, c: Component, d: Component,
                create: ClassInfo, update: ClassInfo, delete: ClassInfo, reset: ClassInfo, terminate: ClassInfo)
    requires Scenario(a, b, c, d, create, update, delete, reset, terminate)
    ensures ComponentRows([a, b, c, d], NameOf, ActionsOf, c)
            == [Row("c", "Create", "b"), Row("c", "Delete", "a"), Row("c", "Update", "a b")]
  {
    assert SortBy(ActionsOf(c), SimpleName) == [create, delete, update] by {
      SortByShort(create, update, delete, SimpleName);
      InsertShort(update, delete, delete, SimpleName);
      InsertShort(create, delete, update, SimpleName);
    }
    ComponentRowsOfThree([a, b, c, d], NameOf, ActionsOf, c, create, delete, update);
    RowCCreate(a, b, c, d, create, update, delete, reset, terminate);
    RowCDelete(a, b, c, d, create, update, delete, reset, terminate);
    RowCUpdate(a, b, c, d, create, update, delete, reset, terminate);
  }

  lemma RowsOfD(a: Component, b: Component, c: Component, d: Component,
                create: ClassInfo, update: ClassInfo, delete: ClassInfo, reset: ClassInfo, terminate: ClassInfo)
    requires Scenario(a, b, c, d, create, update, delete, reset, terminate)
    ensures ComponentRows([a, b, c, d], NameOf, ActionsOf, d) == []
  {
    assert SortBy(ActionsOf(d), SimpleName) == [terminate] by {
      SortByShort(terminate, terminate, terminate, SimpleName);
    }
    ComponentRowsOfOne([a, b, c, d], NameOf, ActionsOf, d, terminate);
    RowDTerminate(a, b, c, d, create, update, delete, reset, terminate);
  }
  /** The components of the scenario are in name order, and no two share a name. */
  lemma ScenarioNames(a: Component, b: Component, c: Component, d: Component,
                      create: ClassInfo, update: ClassInfo, delete: ClassInfo, reset: ClassInfo, terminate: ClassInfo)
    requires Scenario(a, b, c, d, create, update, delete, reset, terminate)
    ensures SortedBy([a, b, c, d], NameKey(NameOf))
    ensures KeyInjective([a, b, c, d], NameKey(NameOf))
  {
    var key := NameKey(NameOf);
    assert key(a) == NameOf(a).value && key(b) == NameOf(b).value && key(c) == NameOf(c).value && key(d) == NameOf(d).value;
    assert key(a) == "a" && key(b) == "b" && key(c) == "c" && key(d) == "d";
    assert Le("a", "b") && Le("a", "c") && Le("a", "d") && Le("b", "c") && Le("b", "d") && Le("c", "d");
    assert "a"[0] == 'a' && "b"[0] == 'b' && "c"[0] == 'c' && "d"[0] == 'd';
  }

  /** The report on the four components, whatever order the collection hands them out in:
      seven rows, none for d. */
  lemma ReportOfScenario(components: seq<Component>, a: Component, b: Component, c: Component, d: Component,
                         create: ClassInfo, update: ClassInfo, delete: ClassInfo, reset: ClassInfo, terminate: ClassInfo)
    requires Scenario(a, b, c, d, create, update, delete, reset, terminate)
    requires multiset(components) == multiset{a, b, c, d}
    ensures Rows(components, NameOf, ActionsOf)
            == [Row("a", "Delete", "c"), Row("a", "Update", "b c"), Row("b", "Create", "c"), Row("b", "Update", "a c"),
                Row("c", "Create", "b"), Row("c", "Delete", "a"), Row("c", "Update", "a b")]
  {
    ScenarioNames(a, b, c, d, create, update, delete, reset, terminate);
    RowsPermutation([a, b, c, d], components, NameOf, ActionsOf);
    RowsOfFour(a, b, c, d, NameOf, ActionsOf);
    RowsOfA(a, b, c, d, create, update, delete, reset, terminate);
    RowsOfB(a, b, c, d, create, update, delete, reset, terminate);
    RowsOfC(a, b, c, d, create, update, delete, reset, terminate);
    RowsOfD(a, b, c, d, create, update, delete, reset, terminate);
    Concatenation(Row("a", "Delete", "c"), Row("a", "Update", "b c"), Row("b", "Create", "c"), Row("b", "Update", "a c"),
                  Row("c", "Create", "b"), Row("c", "Delete", "a"), Row("c", "Update", "a b"));
  }

}
