/**
 * JarComponent: a component whose classes are those packed in an archive; its actions and
 * models are the classes that directly declare the Action or the Model marker interface.
 * Opening the archive and loading classes are outside the model: the archive is given as
 * its entry names and what its class loader finds under each class name.
 */
module Jar {
  import opened Wrappers
  import opened Strings
  import opened Sequences
  import opened ComponentNames
  import opened ClassInfos
  import opened Collecting

  const ClassExtension := ".class"
  const ActionInterface := "org.example.Action"
  const ModelInterface := "org.example.Model"

  /** A class as the loader returns it: getSimpleName and the names of getInterfaces, the
      interfaces the class itself declares. */
  datatype LoadedClass = LoadedClass(simpleName: string, interfaces: seq<string>)

  /** The archive: its path (File.toString, which the message quotes), its entry names in
      archive order, None when it cannot be opened as a jar, and the classes its class
      loader can load, by binary name. */
  datatype Archive = Archive(path: string, entries: Option<seq<string>>, loader: map<string, LoadedClass>)

  /** What ends classes() with a RuntimeException naming the jar. */
  datatype JarError = CannotOpen(jar: string) | ClassNotFound(jar: string, className: string)

  predicate IsClassEntry(entry: string) {
    EndsWith(entry, ClassExtension)
  }

  /** The class a ".class" entry holds: every '/' of the path becomes '.', and the
      extension is cut off. */
  function ClassName(entry: string): (r: string)
    requires IsClassEntry(entry)
    ensures |r| + |ClassExtension| == |entry|
    ensures forall i :: 0 <= i < |r| ==> r[i] == if entry[i] == '/' then '.' else entry[i]
  {
    Replace(entry, '/', '.')[..|entry| - |ClassExtension|]
  }

  /** The entry a class is stored under gives back the class's name. */
  lemma ClassNameOfEntry(n: string)
    requires '/' !in n
    ensures IsClassEntry(Replace(n, '.', '/') + ClassExtension)
    ensures ClassName(Replace(n, '.', '/') + ClassExtension) == n
  {
    var entry := Replace(n, '.', '/') + ClassExtension;
    assert entry[|entry| - |ClassExtension|..] == ClassExtension;
    var r := ClassName(entry);
    forall i | 0 <= i < |n|
      ensures r[i] == n[i]
    {
      assert entry[i] == if n[i] == '.' then '/' else n[i];
    }
  }

  /** One entry of the loop in classes(): nothing for an entry that is not a class file, the
      loaded class for one that is, and an error when the loader cannot find it. The class
      reports the name it was loaded under as its full name. */
  function LoadEntry(path: string, loader: map<string, LoadedClass>, entry: string): Result<Option<ClassValue>, JarError> {
    if !IsClassEntry(entry) then Success(None)
    else
      var className := ClassName(entry);
      if className !in loader then Failure(ClassNotFound(path, className))
      else Success(Some(ClassValue(className, loader[className].simpleName, JarClass(loader[className].interfaces))))
  }

  function LoadStep(path: string, loader: map<string, LoadedClass>): (string, int) -> Result<Option<ClassValue>, JarError> {
    (entry, position) => LoadEntry(path, loader, entry)
  }

  /** classes(): the classes of the archive's class entries in entry order, or the error of
      an archive that cannot be opened or of the first class that cannot be loaded. */
  function ListClasses(jar: Archive): Result<seq<ClassValue>, JarError> {
    if jar.entries.None? then Failure(CannotOpen(jar.path)) else Collect(jar.entries.value, LoadStep(jar.path, jar.loader))
  }

  /** classes() succeeds exactly when the archive opens and every class entry loads ... */
  lemma ListClassesSucceeds(jar: Archive)
    ensures ListClasses(jar).Success? <==>
            jar.entries.Some? && forall e | e in jar.entries.value && IsClassEntry(e) :: ClassName(e) in jar.loader
  {
    if jar.entries.Some? {
      var entries := jar.entries.value;
      CollectSucceeds(entries, LoadStep(jar.path, jar.loader));
      assert forall i :: 0 <= i < |entries| ==>
        (LoadStep(jar.path, jar.loader)(entries[i], i + 1).Success? <==>
         (IsClassEntry(entries[i]) ==> ClassName(entries[i]) in jar.loader));
    }
  }

  /** ... and then yields one class per class entry, in entry order, each named after its
      entry. */
  lemma {:induction false} ClassesOfClassEntries(entries: seq<string>, path: string, loader: map<string, LoadedClass>)
    requires Collect(entries, LoadStep(path, loader)).Success?
    ensures var classes := Collect(entries, LoadStep(path, loader)).value;
            var classEntries := Filter(entries, IsClassEntry);
            && |classes| == |classEntries|
            && forall i :: 0 <= i < |classes| ==> LoadEntry(path, loader, classEntries[i]) == Success(Some(classes[i]))
    decreases |entries|
  {
    if |entries| > 0 {
      var m := |entries| - 1;
      var e := entries[m];
      assert entries == entries[..m] + [e];
      FilterAppend(entries[..m], [e], IsClassEntry);
      assert Filter([e], IsClassEntry) == if IsClassEntry(e) then [e] else [] by {
        assert [e][1..] == [];
      }
      ClassesOfClassEntries(entries[..m], path, loader);
    }
  }

  // ---------------------------------------------------------------------------------------
  // Roles (isAction, isModel, actions, models)

  /** anyMatch over the directly declared interfaces: one of them has exactly this name. */
  predicate Declares(v: ClassValue, iface: string) {
    v.origin.JarClass? && iface in v.origin.interfaces
  }

  predicate IsAction(v: ClassValue) {
    Declares(v, ActionInterface)
  }

  predicate IsModel(v: ClassValue) {
    Declares(v, ModelInterface)
  }

  /** actions() and models(): classes() filtered by the role, or classes()'s error. */
  function ListRole(jar: Archive, role: ClassValue -> bool): Result<seq<ClassValue>, JarError> {
    var classes := ListClasses(jar);
    if classes.Failure? then Failure(classes.error) else Success(Filter(classes.value, role))
  }

  /** The two filters are independent: a class is among the actions exactly when one of
      the interfaces it declares is named org.example.Action, and among the models exactly
      when one is named org.example.Model, so a class declaring both is in both; neither
      list is longer than classes(). */
  lemma RolesIndependent(jar: Archive)
    requires ListClasses(jar).Success?
    ensures var classes := ListClasses(jar).value;
            var actions := ListRole(jar, IsAction).value;
            var models := ListRole(jar, IsModel).value;
            && |actions| <= |classes| && |models| <= |classes|
            && forall v | v in classes ::
                 && v.origin.JarClass?
                 && (v in actions <==> ActionInterface in v.origin.interfaces)
                 && (v in models <==> ModelInterface in v.origin.interfaces)
  {
    var entries := jar.entries.value;
    var classes := ListClasses(jar).value;
    ClassesOfClassEntries(entries, jar.path, jar.loader);
    forall v | v in classes
      ensures v.origin.JarClass?
    {
      var i :| 0 <= i < |classes| && classes[i] == v;
      assert LoadEntry(jar.path, jar.loader, Filter(entries, IsClassEntry)[i]) == Success(Some(v));
    }
    FilterMembers(classes, IsAction);
    FilterMembers(classes, IsModel);
  }

  predicate IsActionInfo(c: ClassInfo) {
    IsAction(ValueOf(c))
  }

  predicate IsModelInfo(c: ClassInfo) {
    IsModel(ValueOf(c))
  }

  // ---------------------------------------------------------------------------------------
  // The component

  class JarComponent {
    const name: ComponentName
    const jar: Archive

    constructor (name: ComponentName, jar: Archive)
      ensures this.name == name && this.jar == jar
    {
      this.name := name;
      this.jar := jar;
    }

    /** new JarComponent(name, jar): refused when the name holds a space; name() is then
        the name given. */
    static method Create(name: string, jar: Archive) returns (r: Result<JarComponent, NameError>)
      ensures r.Success? <==> ' ' !in name
      ensures r.Success? ==> r.value.name.value == name && r.value.jar == jar
      ensures r.Failure? ==> r.error == ContainsSpace(name)
    {
      match ComponentNames.Create(name)
      case Failure(e) =>
        r := Failure(e);
      case Success(n) =>
        var c := new JarComponent(n, jar);
        r := Success(c);
    }

    /** classes(): a new object per class entry, in entry order, or the first error. */
    method Classes() returns (r: Result<seq<ClassInfo>, JarError>)
      ensures var spec := ListClasses(jar);
              && r.Success? == spec.Success?
              && (r.Failure? ==> r.error == spec.error)
              && (r.Success? ==> Map(r.value, ValueOf) == spec.value)
    ensures r.Success? ==> forall x | x in r.value :: fresh(x)
    {
      if jar.entries.None? {
        return Failure(CannotOpen(jar.path));
      }
      var entries := jar.entries.value;
      var classes: seq<ClassInfo> := [];
      var i := 0;
      while i < |entries|
        invariant 0 <= i <= |entries|
        invariant Collect(entries[..i], LoadStep(jar.path, jar.loader)) == Success(Map(classes, ValueOf))
        invariant forall x | x in classes :: fresh(x)
      {
        var entry := entries[i];
        i := i + 1;
        var acc := Map(classes, ValueOf);
        if EndsWith(entry, ClassExtension) {
          var className := Replace(entry, '/', '.')[..|entry| - |ClassExtension|];
          if className !in jar.loader {
            assert LoadEntry(jar.path, jar.loader, entry) == Failure(ClassNotFound(jar.path, className));
            CollectFails(entries, LoadStep(jar.path, jar.loader), i - 1);
            return Failure(ClassNotFound(jar.path, className));
          }
          var loaded := jar.loader[className];
          var info := new ClassInfo(className, loaded.simpleName, JarClass(loaded.interfaces));
          assert LoadEntry(jar.path, jar.loader, entry) == Success(Some(ValueOf(info)));
          CollectNext(entries, LoadStep(jar.path, jar.loader), i - 1, acc);
          MapAppend(classes, [info], ValueOf);
          assert Map([info], ValueOf) == [ValueOf(info)] by {
            MapAt([info], ValueOf);
          }
          classes := classes + [info];
          assert Map(classes, ValueOf) == acc + [ValueOf(info)];
        } else {
          assert LoadEntry(jar.path, jar.loader, entry) == Success(None);
          CollectNext(entries, LoadStep(jar.path, jar.loader), i - 1, acc);
          assert acc + [] == acc;
        }
      }
      assert entries[..i] == entries;
      return Success(classes);
    }

    /** actions(): the classes that declare Action, in the order of classes(); every call
        lists the archive anew, so the objects are new ones. */
    method Actions() returns (r: Result<seq<ClassInfo>, JarError>)
      ensures var spec := ListRole(jar, IsAction);
              && r.Success? == spec.Success?
              && (r.Failure? ==> r.error == spec.error)
              && (r.Success? ==> Map(r.value, ValueOf) == spec.value)
    ensures r.Success? ==> forall x | x in r.value :: fresh(x)
    {
      var classes := Classes();
      if classes.Failure? {
        return Failure(classes.error);
      }
      MapFilter(classes.value, ValueOf, IsAction, IsActionInfo);
      FilterMembers(classes.value, IsActionInfo);
      return Success(Filter(classes.value, IsActionInfo));
    }

    /** models(): the classes that declare Model, in the order of classes(); every call
        lists the archive anew, so the objects are new ones. */
    method Models() returns (r: Result<seq<ClassInfo>, JarError>)
      ensures var spec := ListRole(jar, IsModel);
              && r.Success? == spec.Success?
              && (r.Failure? ==> r.error == spec.error)
              && (r.Success? ==> Map(r.value, ValueOf) == spec.value)
    ensures r.Success? ==> forall x | x in r.value :: fresh(x)
    {
      var classes := Classes();
      if classes.Failure? {
        return Failure(classes.error);
      }
      MapFilter(classes.value, ValueOf, IsModel, IsModelInfo);
      FilterMembers(classes.value, IsModelInfo);
      return Success(Filter(classes.value, IsModelInfo));
    }
  }
}
