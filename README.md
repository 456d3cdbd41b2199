# raqoom core in Dafny

raqoom sorts the classes of a project's components into two roles, *actions* and
*models*, and reports the classes that more than one component claims. This project
models the core of that in Dafny:

- the shared-classes report engine (`SharedClassesReport.write`). For every component in
  name order, and every class it selects in simple-name order, the report lists the other
  component instances that select the same `ClassInfo` object. It writes one row
  `name,simpleName,other names` per shared class and appends the rows to the report file.
- the two instantiations of that engine, over `actions()` (`SharedActionsReport`) and
  over `models()` (`SharedModelsReport`).
- `CsvComponent`, a component described by a manifest file:
  - the name is taken from the file name;
  - `actions()` parses the file line by line;
  - `write` serialises the actions of a component.
- `ComponentName`, a label that may not hold a space and is ordered like its string.
- the pure part of `JarComponent`:
  - which archive entries are classes and what those classes are called;
  - the `isAction`/`isModel` role tests;
  - the `actions()`/`models()` filters.

Modules:

| file | module | what it holds |
|---|---|---|
| `wrappers.dfy` | `Wrappers` | `Option`, `Result`, `Outcome` |
| `strings.dfy` | `Strings` | the `java.lang.String` operations the core uses: `compareTo`, `split`, `trim`, `equalsIgnoreCase`, `endsWith`, `replace`, joining |
| `sequences.dfy` | `Sequences` | `Stream.sorted` (a stable insertion sort), `filter` and `map`, and a flat map |
| `collect.dfy` | `Collecting` | the loop both components run over their input: the first error ends it |
| `class_info.dfy` | `ClassInfos` | `ClassInfo` objects; Java's `equals` on them is identity |
| `component_name.dfy` | `ComponentNames` | `ComponentName` |
| `shared_classes_report.dfy` | `SharedReport` | the engine: `Entries` and `Rows` specify the report, and `Write` is proved to append exactly `Rows` |
| `shared_actions_report.dfy` | `SharedActions` | the actions report and the worked example of its test |
| `shared_models_report.dfy` | `SharedModels` | the models report and the worked example of its test |
| `csv_component.dfy` | `Csv` | `CsvComponent` |
| `jar_component.dfy` | `Jar` | `JarComponent` |
| `composition.dfy` | `Composition` | the actions report over two `CsvComponent`s |

The files are modelled as follows:

- The report file is a `ReportFile` object. It holds the sequence of pieces written to it,
  and `write` appends to that sequence, as the Java writer opened in append mode does.
- The manifest file is a `CsvFile` object. Its text is `None` while the file does not exist.
  `Lines` splits the text the way `BufferedReader.readLine` does: a line ends at `"\n"`,
  `"\r"` or `"\r\n"`.
- An archive is its entry names, in archive order, plus a map from a class name to what the
  class loader yields for it: the simple name and the names of the directly declared
  interfaces.

Where the Java code throws, the model returns `Failure` or `Fail` with the reason, and the
path of the file or archive that the Java message names.

The report matches classes with `Collection.contains`, so two components share a class only
when they hold the same `ClassInfo` object. `CsvComponent.actions()` and
`JarComponent.classes()` make new objects on every call, and `Csv.CsvComponent.Actions` and
`Jar.JarComponent.Classes` say so (`fresh`). So the report over components read from
manifests or archives has no rows; `Composition.ActionsReportOverManifests` proves that for
two manifest components.

These functions define the model. Their properties are the lemmas and methods in the table
below:

- `ComponentNames.CompareTo`: `ComponentName.compareTo` (ComponentName.java:11-13); `Strings.CompareTo`: `String.compareTo`.
- `Strings.JavaSplit`, `Strings.Trim`, `Strings.EqualsIgnoreCase`: `String.split`, `trim`, `equalsIgnoreCase` as the core calls them.
- `Csv.Lines`: `BufferedReader.readLine` (CsvComponent.java:36).
- `Csv.ParseLine`: one pass of the read loop (CsvComponent.java:37-45); `Csv.ParseBooleanStrict`: `parseBooleanStrict` (CsvComponent.java:53-59).
- `Csv.ReadActions`: the whole of `actions()` on a file's text (CsvComponent.java:27-50).
- `Csv.RowLine`, `Csv.Text`: `writeAction` and the write loop (CsvComponent.java:66-68, 75).
- `Jar.LoadEntry`, `Jar.ListClasses`: one entry and the whole of `classes()` (JarComponent.java:44-60).
- `Jar.IsAction`, `Jar.IsModel`: `isAction`, `isModel` (JarComponent.java:83-93); `Jar.ListRole`: `actions()`/`models()` (JarComponent.java:31-42).
- `SharedReport.Others`, `SharedReport.OtherNames`, `SharedReport.Row`: `otherComponents`, `componentNames` and the row format (SharedClassesReport.java:28-38).
- `SharedReport.Entries`, `SharedReport.Rows`: what `write` writes (SharedClassesReport.java:26-40).

## Model

| member | source | states |
|---|---|---|
| ComponentNames.Create | src/main/java/olegmoz/raqoom/ComponentName.java:4-8 | a name is refused exactly when it contains `' '`, and the error carries the value; any other value, tabs included, is accepted and `value()` returns it unchanged |
| ComponentNames.CompareToConsistentWithEquals | src/main/java/olegmoz/raqoom/ComponentName.java:11-13 | `compareTo` returns 0 exactly on equal names, in agreement with the record's `equals` |
| ComponentNames.CompareToAntisymmetric | src/main/java/olegmoz/raqoom/ComponentName.java:11-13 | swapping the arguments negates `compareTo` |
| ComponentNames.CompareToTransitive | src/main/java/olegmoz/raqoom/ComponentName.java:11-13 | the order `compareTo` defines is transitive |
| Strings.CompareToAntisymmetric | src/main/java/olegmoz/raqoom/ComponentName.java:12 | `String.compareTo(a, b)` is exactly `-compareTo(b, a)` |
| Strings.CompareToZero | src/main/java/olegmoz/raqoom/ComponentName.java:12 | `String.compareTo` is 0 exactly on equal strings |
| Strings.LessTransitive | src/main/java/olegmoz/raqoom/report/SharedClassesReport.java:26 | the strict string order that every sort uses is transitive |
| Strings.SplitJoin | src/main/java/olegmoz/raqoom/CsvComponent.java:38 | splitting a join of separator-free fields gives back those fields |
| Strings.DropTrailingEmpty | src/main/java/olegmoz/raqoom/CsvComponent.java:38 | `split` drops exactly the trailing empty fields: the result is a prefix, it does not end with an empty field, and everything cut off is empty |
| Strings.JavaSplitThree | src/main/java/olegmoz/raqoom/CsvComponent.java:38 | three separator-free fields, the last non-empty, joined with the separator split back into those three |
| Strings.TrimStart | src/main/java/olegmoz/raqoom/CsvComponent.java:54 | `trim` removes exactly the leading characters up to U+0020 and keeps the rest |
| Strings.TrimEnd | src/main/java/olegmoz/raqoom/CsvComponent.java:54 | `trim` removes exactly the trailing characters up to U+0020 and keeps the rest |
| Strings.TrimUnchanged | src/main/java/olegmoz/raqoom/CsvComponent.java:54 | a string with no blank at either end is left unchanged by `trim` |
| Sequences.SortByPermutes | src/main/java/olegmoz/raqoom/report/SharedClassesReport.java:26 | `sorted` returns a permutation of its input |
| Sequences.SortBySorted | src/main/java/olegmoz/raqoom/report/SharedClassesReport.java:26 | `sorted(comparing(key))` returns its input in ascending key order |
| Sequences.SortByMembers | src/main/java/olegmoz/raqoom/report/SharedClassesReport.java:27 | the sort keeps exactly the elements of its input, and the count |
| Sequences.SortByUnique | src/main/java/olegmoz/raqoom/report/SharedClassesReport.java:26 | when no two elements share a key, the result of the sort depends only on the multiset of the input, not on its order |
| Sequences.SortByOfSorted | src/main/java/olegmoz/raqoom/report/SharedClassesReport.java:26 | sorting an input that is already in order leaves it unchanged |
| Sequences.FilterMembers | src/main/java/olegmoz/raqoom/report/SharedClassesReport.java:28-31 | `filter` keeps exactly the elements that satisfy the predicate, and never more elements than its input has |
| Sequences.FilterAppend | src/main/java/olegmoz/raqoom/JarComponent.java:32-34 | filtering distributes over concatenation, so it keeps the input order |
| Sequences.FilterPermutation | src/main/java/olegmoz/raqoom/report/SharedClassesReport.java:28-31 | filtering two permutations of each other gives two permutations of each other |
| Sequences.MapFilter | src/main/java/olegmoz/raqoom/JarComponent.java:32-34 | mapping after filtering on a property of the image is filtering the image |
| Sequences.MapPermutation | src/main/java/olegmoz/raqoom/report/SharedClassesReport.java:33-35 | mapping two permutations of each other gives two permutations of each other |
| SharedReport.OthersMembers | src/main/java/olegmoz/raqoom/report/SharedClassesReport.java:28-31 | `otherComponents` holds exactly the components of the collection that are not this instance and whose selection contains the class object |
| SharedReport.ClassEntryMembers | src/main/java/olegmoz/raqoom/report/SharedClassesReport.java:28-32 | a class yields an entry exactly when some other component shares it, and that entry lists those others |
| SharedReport.ComponentEntriesMembers | src/main/java/olegmoz/raqoom/report/SharedClassesReport.java:27-32 | a component's entries are exactly its selected classes that another component also selects |
| SharedReport.EntriesMembers | src/main/java/olegmoz/raqoom/report/SharedClassesReport.java:26-32 | the report has an entry for (component, class) exactly when the component is in the collection, selects the class, and some other instance selects the same object; the entry lists exactly those others |
| SharedReport.SharingSymmetric | src/main/java/olegmoz/raqoom/report/SharedClassesReport.java:28-31 | when a class of A lists B, B has its own entry for the same class, and that entry lists A |
| SharedReport.NoSharingNoRows | src/main/java/olegmoz/raqoom/report/SharedClassesReport.java:32 | the report is empty exactly when no two different instances select the same object |
| SharedReport.RowsAt | src/main/java/olegmoz/raqoom/report/SharedClassesReport.java:38 | there is one row per entry, in entry order, of the form `name,simpleName,names` followed by `"\n"` |
| SharedReport.ClassRowsValue | src/main/java/olegmoz/raqoom/report/SharedClassesReport.java:32-38 | a class gives no row when nobody else shares it, and otherwise exactly one row |
| SharedReport.ComponentEntriesSorted | src/main/java/olegmoz/raqoom/report/SharedClassesReport.java:27 | the rows of one component come in ascending simple-name order |
| SharedReport.EntriesByName | src/main/java/olegmoz/raqoom/report/SharedClassesReport.java:26 | for every collection, the rows come in ascending order of the component's name |
| SharedReport.EntriesOrdered | src/main/java/olegmoz/raqoom/report/SharedClassesReport.java:26-27 | when the instances and their names are distinct, the rows are in ascending (component name, simple name) order |
| SharedReport.OtherNamesDecode | src/main/java/olegmoz/raqoom/report/SharedClassesReport.java:33-37 | the third field is the others' names sorted ascending, one per other component, and splitting it on `' '` gives them back |
| SharedReport.OtherNamesPermutation | src/main/java/olegmoz/raqoom/report/SharedClassesReport.java:33-37 | the third field does not depend on the order in which the others are found |
| SharedReport.ClassRowsPermutation | src/main/java/olegmoz/raqoom/report/SharedClassesReport.java:28-38 | the row of a class does not depend on the iteration order of the collection |
| SharedReport.RowsCongruent | src/main/java/olegmoz/raqoom/report/SharedClassesReport.java:26-38 | only the components' `name()` and selection (`actions()` or `models()`) count: two namings and selectors that agree on every component of the collection give the same report |
| SharedReport.RowsPermutation | src/main/java/olegmoz/raqoom/report/SharedClassesReport.java:26-39 | the whole report does not depend on the iteration order of the collection when no two components share a name |
| SharedReport.ClassRowsOverStep | src/main/java/olegmoz/raqoom/report/SharedClassesReport.java:27-39 | one pass of the inner loop appends a row exactly when the class has others |
| SharedReport.RowsOverStep | src/main/java/olegmoz/raqoom/report/SharedClassesReport.java:26-40 | one pass of the outer loop appends that component's rows |
| SharedReport.SharedClassesReport.constructor | src/main/java/olegmoz/raqoom/report/SharedClassesReport.java:19-22 | the report keeps the collection and the selector it is given |
| SharedReport.SharedClassesReport.Write | src/main/java/olegmoz/raqoom/report/SharedClassesReport.java:24-45 | the earlier content of the file stays and is followed by exactly the report's rows |
| SharedReport.SharedClassesReport.WriteComponents | src/main/java/olegmoz/raqoom/report/SharedClassesReport.java:26-41 | the outer loop appends the blocks of the components in the given order |
| SharedReport.SharedClassesReport.WriteComponent | src/main/java/olegmoz/raqoom/report/SharedClassesReport.java:27-40 | the inner loop appends the rows of one component's classes, sorted by simple name |
| SharedActions.SharedActionsReport.constructor | src/main/java/olegmoz/raqoom/report/SharedActionsReport.java:12-14 | the delegate is the engine over the given components with `name()` and `actions()` |
| SharedActions.SharedActionsReport.Write | src/main/java/olegmoz/raqoom/report/SharedActionsReport.java:16-18 | `write` has exactly the engine's effect on the file |
| SharedActions.ScenarioNames | src/test/java/olegmoz/raqoom/report/SharedActionsReportTest.java:30-33 | the test's components a, b, c and d are in name order and have distinct names |
| SharedActions.ReportOfScenario | src/test/java/olegmoz/raqoom/report/SharedActionsReportTest.java:25-50 | for a{Reset,Update,Delete}, b{Create,Update}, c{Create,Update,Delete} and d{Terminate}, in any iteration order, the report is exactly the seven rows `a,Delete,c` … `c,Update,a b` |
| SharedModels.SharedModelsReport.constructor | src/main/java/olegmoz/raqoom/report/SharedModelsReport.java:12-14 | the delegate is the engine over the given components with `name()` and `models()` |
| SharedModels.SharedModelsReport.Write | src/main/java/olegmoz/raqoom/report/SharedModelsReport.java:16-18 | `write` has exactly the engine's effect on the file |
| SharedModels.ScenarioNames | src/test/java/olegmoz/raqoom/report/SharedModelsReportTest.java:30-33 | the test's components a, b, c and d are in name order and have distinct names |
| SharedModels.ReportOfScenario | src/test/java/olegmoz/raqoom/report/SharedModelsReportTest.java:25-50 | for a{Payment,Account,Card}, b{User,Account}, c{User,Account,Card} and d{Statement}, in any iteration order, the report is exactly the seven rows `a,Account,b c` … `c,User,b`, and d contributes nothing |
| Collecting.CollectSucceeds | src/main/java/olegmoz/raqoom/CsvComponent.java:36-46 | the read succeeds exactly when every line parses |
| Collecting.CollectAbort | src/main/java/olegmoz/raqoom/CsvComponent.java:39-41 | once a line fails, the lines after it are not looked at and no partial list is returned |
| Collecting.CollectFirstError | src/main/java/olegmoz/raqoom/JarComponent.java:48-57 | the first failing item decides the error, whatever follows it |
| Csv.ExtractName | src/main/java/olegmoz/raqoom/CsvComponent.java:78-84 | the name is the file name without one trailing `.csv` when it has one, and otherwise the whole file name |
| Csv.ExtractNameOfCsv | src/main/java/olegmoz/raqoom/CsvComponent.java:80-82 | the file `n.csv` names the component `n` |
| Csv.LineLength | src/main/java/olegmoz/raqoom/CsvComponent.java:36 | a line read runs exactly up to the first line break |
| Csv.LinesOfLine | src/main/java/olegmoz/raqoom/CsvComponent.java:36 | a line without line breaks followed by `"\n"` reads back as that line, and reading continues after it |
| Csv.ParseBooleanIgnoresCase | src/main/java/olegmoz/raqoom/CsvComponent.java:53-58 | two flags that are equal after trimming and ignoring case are accepted or refused alike, with the same value |
| Csv.ParseBooleanOfPaddedUpperCase | src/main/java/olegmoz/raqoom/CsvComponent.java:54-58 | `" TRUE "` reads as true |
| Csv.ParseBooleanOfOtherWord | src/main/java/olegmoz/raqoom/CsvComponent.java:55-56 | `" yes"` is refused, and the error names the trimmed value, the line number and the line |
| Csv.TrailingEmptyFieldIgnored | src/main/java/olegmoz/raqoom/CsvComponent.java:38-40 | `"a,b,"` has two fields, not three, and is refused as incomplete with its line number and text |
| Csv.ReadActionsFirstError | src/main/java/olegmoz/raqoom/CsvComponent.java:36-46 | a file whose lines parse up to a bad one fails with that line's error, whatever follows |
| Csv.RowLineFields | src/main/java/olegmoz/raqoom/CsvComponent.java:75 | a written row has no line break and splits back into the two names and `true` |
| Csv.ParseRowLine | src/main/java/olegmoz/raqoom/CsvComponent.java:38-45 | a written row parses back to an action with the same full and simple names |
| Csv.LinesOfText | src/main/java/olegmoz/raqoom/CsvComponent.java:65-67 | the written text reads back as one line per action, in order |
| Csv.ParseRowLines | src/main/java/olegmoz/raqoom/CsvComponent.java:36-46 | the written rows parse back to the same actions, in order |
| Csv.WriteThenRead | src/main/java/olegmoz/raqoom/CsvComponent.java:61-76 | `actions()` on a file made by `write` returns the same (fullName, simpleName) sequence, as long as no name holds `,` or a line break |
| Csv.CsvComponent.Create | src/main/java/olegmoz/raqoom/CsvComponent.java:16-19 | the component is named after its file without `.csv`, and is refused exactly when that name holds a space |
| Csv.CsvComponent.Actions | src/main/java/olegmoz/raqoom/CsvComponent.java:26-51 | without a file: "does not exist" with the path; otherwise a new object per row flagged true, in file order, with fields 0 and 1, or the error of the first bad line |
| Csv.CsvComponent.ReadLine | src/main/java/olegmoz/raqoom/CsvComponent.java:37-45 | one line of the read loop fails exactly as the line's parse does, with its error; otherwise it yields a new object exactly when the line is flagged true, holding fields 0 and 1 |
| Csv.CsvComponent.Write | src/main/java/olegmoz/raqoom/CsvComponent.java:61-72 | an existing file is refused, naming it, and left untouched; otherwise it is created holding one `fullName,simpleName,true` line per action, in order |
| Jar.ClassName | src/main/java/olegmoz/raqoom/JarComponent.java:51-52 | the class name is the entry name without its 6-character `.class` suffix, with every `/` replaced by `.` |
| Jar.ClassNameOfEntry | src/main/java/olegmoz/raqoom/JarComponent.java:50-52 | the entry a class is stored under is a class entry, and it gives back the class name |
| Jar.ListClassesSucceeds | src/main/java/olegmoz/raqoom/JarComponent.java:46-58 | `classes()` succeeds exactly when the archive opens and every `.class` entry loads |
| Jar.ClassesOfClassEntries | src/main/java/olegmoz/raqoom/JarComponent.java:47-54 | `classes()` yields one class per `.class` entry, in entry order, each named after its entry; other entries are ignored |
| Jar.RolesIndependent | src/main/java/olegmoz/raqoom/JarComponent.java:83-93 | a class is an action exactly when one of its own interfaces is named `org.example.Action`, and a model exactly when one is named `org.example.Model`; a class may be both, and neither list is longer than `classes()` |
| Jar.JarComponent.Create | src/main/java/olegmoz/raqoom/JarComponent.java:20-23 | `name()` is the name given, and it is refused when it holds a space |
| Jar.JarComponent.Classes | src/main/java/olegmoz/raqoom/JarComponent.java:44-60 | a new object per class entry, in entry order, or the error, naming the jar, of an archive that will not open or of the first class that will not load |
| Jar.JarComponent.Actions | src/main/java/olegmoz/raqoom/JarComponent.java:31-35 | the classes that declare Action, in the order of `classes()`, all new objects, or the error of `classes()` |
| Jar.JarComponent.Models | src/main/java/olegmoz/raqoom/JarComponent.java:37-42 | the classes that declare Model, in the order of `classes()`, all new objects, or the error of `classes()` |
| Composition.DisjointActionsNoRows | src/main/java/olegmoz/raqoom/report/SharedClassesReport.java:28-32 | two components whose actions are different objects give an empty report |
| Composition.ActionsReportOverManifests | src/main/java/olegmoz/raqoom/report/SharedActionsReport.java:16-18 | the actions report over two manifest components leaves the file as it was, whatever the manifests hold; it goes ahead exactly when both manifests read |

## Left out

- File I/O:
  - `IOException`s, and wrapping them into `RuntimeException`, are not modelled: reading and writing are total.
  - `File.exists` is the `None`/`Some` of the file's text.
  - `File.getName` is a given string.
- Opening the archive and loading classes by reflection are not modelled:
  - the archive is its entry names (`None` when it cannot be opened) and a map from class name to the loaded class;
  - linkage errors and classes found through the parent class loader are not modelled.
- The report engine takes each component's name and selection as fixed values. A selector that throws, or that returns different collections on different calls, is not modelled.
- `String` is a sequence of `char`:
  - no UTF-16 surrogate handling;
  - `equalsIgnoreCase` folds ASCII letters only;
  - `trim` removes characters up to U+0020.
- The `ClassInfo` interface and the `Component` interface that the components implement are not part of this model. The two reports see components as objects with a name and a fixed selection; only `Composition` plugs `CsvComponent` into them, with each component's actions read once.
- Csv.CsvComponent.Write takes the actions of the component passed to `write`, already read, rather than the component itself. So it does not capture two things the Java code does:
  - the file is created (CsvComponent.java:65) before `component.actions()` is called (line 66). An `actions()` that throws leaves an empty file behind, and every later `write` to it is refused;
  - `write(this)` reads the file it has just created, which is empty, and so writes nothing.
- Stale tests that call members the code does not have are not modelled: `CsvComponentTest` (`read()`, `models()`, `ClassType`) and the one-argument constructor in `JarComponentTest`.
- SharedReport.RowsPermutation assumes that no two components share a name. Between two components with the same name, the stable sort keeps the collection's iteration order.
- The report matches classes by object identity, as `Collection.contains` does when `equals` is not overridden. The code compares objects.
