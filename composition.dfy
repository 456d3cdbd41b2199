/**
 * The pieces put together: the actions report over components read from manifests. Every
 * actions() call makes new ClassInfo objects, and the report matches classes with
 * Collection.contains, which compares objects; so two such components never share a class.
 */
module Composition {
  import opened ClassInfos
  import opened SharedReport
  import opened SharedActions
  import Csv

  /** The actions report over two manifest components, each component's actions read once:
      the report file is left as it was, whatever the manifests hold, even when both are the
      same component. Reading the actions anew on every selection, as the report does
      with a live component, only makes more new objects. */
  method ActionsReportOverManifests(m1: Csv.CsvComponent, m2: Csv.CsvComponent, file: ReportFile)
    returns (written: bool)
    modifies file
    ensures written <==> Csv.ReadActions(m1.csv.path, m1.csv.text).Success?
                         && Csv.ReadActions(m2.csv.path, m2.csv.text).Success?
    ensures file.content == old(file.content)
  {
    var actions1 := m1.Actions();
    var actions2 := m2.Actions();
    if actions1.Failure? || actions2.Failure? {
      return false;
    }
    assert forall x, y | x in actions1.value && y in actions2.value :: x != y;
    var c1 := new Component(m1.name, actions1.value);
    var c2 := new Component(m2.name, actions2.value);
    DisjointActionsNoRows(c1, c2);
    var components := [c1, c2];
    var report := new SharedActionsReport(components);
    report.Write(file);
    assert file.content == old(file.content) + [];
    return true;
  }

  /** Two components whose actions are different objects share no class: no rows. */
  lemma DisjointActionsNoRows(c1: Component, c2: Component)
    requires forall x, y | x in c1.actions && y in c2.actions :: x != y
    ensures Rows([c1, c2], NameOf, ActionsOf) == []
  {
    var components := [c1, c2];
    forall a, b, cls | a in components && b in components && cls in ActionsOf(a) && cls in ActionsOf(b)
      ensures a == b
    {
      assert a == c1 || a == c2;
      assert b == c1 || b == c2;
    }
    NoSharingNoRows(components, NameOf, ActionsOf);
  }
}
