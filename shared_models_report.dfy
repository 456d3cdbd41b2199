/**
 * SharedModelsReport: the shared-classes report over the components' models.
 */
module SharedModels {
  import opened Strings
  import opened Sequences
  import opened ComponentNames
  import opened ClassInfos
  import opened SharedReport

  /** A component as this report sees it: its name and its models. */
  class Component {
    const name: ComponentName
    const models: seq<ClassInfo>

    constructor (name: ComponentName, models: seq<ClassInfo>)
      ensures this.name == name && this.models == models
    {
      this.name := name;
      this.models := models;
    }
  }

  /** Component::name */
  function NameOf(c: Component): ComponentName {
    c.name
  }

  /** Component::models, the selector handed to the engine. */
  function ModelsOf(c: Component): seq<ClassInfo> {
    c.models
  }

  class SharedModelsReport {
    const delegate: SharedClassesReport<Component>

    /** The delegate works on the components' names and models. */
    ghost predicate Valid() {
      delegate.name == NameOf && delegate.classesExtractor == ModelsOf
    }

    constructor (components: seq<Component>)
      ensures Valid() && delegate.components == components
    {
      delegate := new SharedClassesReport(components, NameOf, ModelsOf);
    }

    /** write(csv): appends the rows of the engine over the components' models. */
    method Write(csv: ReportFile)
      requires Valid()
      modifies csv
      ensures csv.content == old(csv.content) + Rows(delegate.components, NameOf, ModelsOf)
    {
      delegate.Write(csv);
    }
  }

  /** Four components a, b, c, d with the models Payment, Account, Card; User, Account;
      User, Account, Card; and Statement, every model one object. */
  ghost predicate Scenario(a: Component, b: Component, c: Component, d: Component,
                           user: ClassInfo, account: ClassInfo, card: ClassInfo,
                           payment: ClassInfo, statement: ClassInfo)
  {
    && user.simpleName == "User" && account.simpleName == "Account" && card.simpleName == "Card"
    && payment.simpleName == "Payment" && statement.simpleName == "Statement"
    && user != account && user != card && user != payment && user != statement
    && account != card && account != payment && account != statement
    && card != payment && card != statement && payment != statement
    && a != b && a != c && a != d && b != c && b != d && c != d
    && a.name.value == "a" && a.models == [payment, account, card]
    && b.name.value == "b" && b.models == [user, account]
    && c.name.value == "c" && c.models == [user, account, card]
    && d.name.value == "d" && d.models == [statement]
  }

  /** The row of each model of each component, worked out. */
  lemma RowAAccount(a: Component, b: Component, c: Component, d: Component,
                    user: ClassInfo, account: ClassInfo, card: ClassInfo, payment: ClassInfo, statement: ClassInfo)
    requires Scenario(a, b, c, d, user, account, card, payment, statement)
    ensures ClassRows([a, b, c, d], NameOf, ModelsOf, a, account) == [Row("a", "Account", "b c")]
  {
    OthersOfFour(a, b, c, d, a, ModelsOf, account);
    var p := SharesClass(a, ModelsOf, account);
    assert account in ModelsOf(b) && account in ModelsOf(c) && account !in ModelsOf(d);
    assert !p(a) && p(b) && p(c) && !p(d);
    assert Less("b", "c");
    ClassRowsTwo([a, b, c, d], NameOf, ModelsOf, a, account, b, c);
    assert "b" + " " + "c" == "b c";
  }

  lemma RowACard(a: Component, b: Component, c: Component, d: Component,
                 user: ClassInfo, account: ClassInfo, card: ClassInfo, payment: ClassInfo, statement: ClassInfo)
    requires Scenario(a, b, c, d, user, account, card, payment, statement)
    ensures ClassRows([a, b, c, d], NameOf, ModelsOf, a, card) == [Row("a", "Card", "c")]
  {
    OthersOfFour(a, b, c, d, a, ModelsOf, card);
    var p := SharesClass(a, ModelsOf, card);
    assert card !in ModelsOf(b) && card in ModelsOf(c) && card !in ModelsOf(d);
    assert !p(a) && !p(b) && p(c) && !p(d);
    ClassRowsOne([a, b, c, d], NameOf, ModelsOf, a, card, c);
  }

  lemma RowAPayment(a: Component, b: Component, c: Component, d: Component,
                    user: ClassInfo, account: ClassInfo, card: ClassInfo, payment: ClassInfo, statement: ClassInfo)
    requires Scenario(a, b, c, d, user, account, card, payment, statement)
    ensures ClassRows([a, b, c, d], NameOf, ModelsOf, a, payment) == []
  {
    OthersOfFour(a, b, c, d, a, ModelsOf, payment);
    var p := SharesClass(a, ModelsOf, payment);
    assert payment !in ModelsOf(b) && payment !in ModelsOf(c) && payment !in ModelsOf(d);
    assert !p(a) && !p(b) && !p(c) && !p(d);
    ClassRowsNone([a, b, c, d], NameOf, ModelsOf, a, payment);
  }

  lemma RowBAccount(a: Component, b: Component, c: Component, d: Component,
                    user: ClassInfo, account: ClassInfo, card: ClassInfo, payment: ClassInfo, statement: ClassInfo)
    requires Scenario(a, b, c, d, user, account, card, payment, statement)
    ensures ClassRows([a, b, c, d], NameOf, ModelsOf, b, account) == [Row("b", "Account", "a c")]
  {
    OthersOfFour(a, b, c, d, b, ModelsOf, account);
    var p := SharesClass(b, ModelsOf, account);
    assert account in ModelsOf(a) && account in ModelsOf(c) && account !in ModelsOf(d);
    assert p(a) && !p(b) && p(c) && !p(d);
    assert Less("a", "c");
    ClassRowsTwo([a, b, c, d], NameOf, ModelsOf, b, account, a, c);
    assert "a" + " " + "c" == "a c";
  }

  lemma RowBUser(a: Component, b: Component, c: Component, d: Component,
                 user: ClassInfo, account: ClassInfo, card: ClassInfo, payment: ClassInfo, statement: ClassInfo)
    requires Scenario(a, b, c, d, user, account, card, payment, statement)
    ensures ClassRows([a, b, c, d], NameOf, ModelsOf, b, user) == [Row("b", "User", "c")]
  {
    OthersOfFour(a, b, c, d, b, ModelsOf, user);
    var p := SharesClass(b, ModelsOf, user);
    assert user !in ModelsOf(a) && user in ModelsOf(c) && user !in ModelsOf(d);
    assert !p(a) && !p(b) && p(c) && !p(d);
    ClassRowsOne([a, b, c, d], NameOf, ModelsOf, b, user, c);
  }

  lemma RowCAccount(a: Component, b: Component, c: Component, d: Component,
                    user: ClassInfo, account: ClassInfo, card: ClassInfo, payment: ClassInfo, statement: ClassInfo)
    requires Scenario(a, b, c, d, user, account, card, payment, statement)
    ensures ClassRows([a, b, c, d], NameOf, ModelsOf, c, account) == [Row("c", "Account", "a b")]
  {
    OthersOfFour(a, b, c, d, c, ModelsOf, account);
    var p := SharesClass(c, ModelsOf, account);
    assert account in ModelsOf(a) && account in ModelsOf(b) && account !in ModelsOf(d);
    assert p(a) && p(b) && !p(c) && !p(d);
    assert Less("a", "b");
    ClassRowsTwo([a, b, c, d], NameOf, ModelsOf, c, account, a, b);
    assert "a" + " " + "b" == "a b";
  }

  lemma RowCCard(a: Component, b: Component, c: Component, d: Component,
                 user: ClassInfo, account: ClassInfo, card: ClassInfo, payment: ClassInfo, statement: ClassInfo)
    requires Scenario(a, b, c, d, user, account, card, payment, statement)
    ensures ClassRows([a, b, c, d], NameOf, ModelsOf, c, card) == [Row("c", "Card", "a")]
  {
    OthersOfFour(a, b, c, d, c, ModelsOf, card);
    var p := SharesClass(c, ModelsOf, card);
    assert card in ModelsOf(a) && card !in ModelsOf(b) && card !in ModelsOf(d);
    assert p(a) && !p(b) && !p(c) && !p(d);
    ClassRowsOne([a, b, c, d], NameOf, ModelsOf, c, card, a);
  }

  lemma RowCUser(a: Component, b: Component, c: Component, d: Component,
                 user: ClassInfo, account: ClassInfo, card: ClassInfo, payment: ClassInfo, statement: ClassInfo)
    requires Scenario(a, b, c, d, user, account, card, payment, statement)
    ensures ClassRows([a, b, c, d], NameOf, ModelsOf, c, user) == [Row("c", "User", "b")]
  {
    OthersOfFour(a, b, c, d, c, ModelsOf, user);
    var p := SharesClass(c, ModelsOf, user);
    assert user !in ModelsOf(a) && user in ModelsOf(b) && user !in ModelsOf(d);
    assert !p(a) && p(b) && !p(c) && !p(d);
    ClassRowsOne([a, b, c, d], NameOf, ModelsOf, c, user, b);
  }

  lemma RowDStatement(a: Component, b: Component, c: Component, d: Component,
                      user: ClassInfo, account: ClassInfo, card: ClassInfo, payment: ClassInfo, statement: ClassInfo)
    requires Scenario(a, b, c, d, user, account, card, payment, statement)
    ensures ClassRows([a, b, c, d], NameOf, ModelsOf, d, statement) == []
  {
    OthersOfFour(a, b, c, d, d, ModelsOf, statement);
    var p := SharesClass(d, ModelsOf, statement);
    assert statement !in ModelsOf(a) && statement !in ModelsOf(b) && statement !in ModelsOf(c);
    assert !p(a) && !p(b) && !p(c) && !p(d);
    ClassRowsNone([a, b, c, d], NameOf, ModelsOf, d, statement);
  }

  /** The rows of each component: its models in simple-name order, each with its row. */
  lemma RowsOfA(a: Component, b: Component, c: Component, d: Component,
                user: ClassInfo, account: ClassInfo, card: ClassInfo, payment: ClassInfo, statement: ClassInfo)
    requires Scenario(a, b, c, d, user, account, card, payment, statement)
    ensures ComponentRows([a, b, c, d], NameOf, ModelsOf, a) == [Row("a", "Account", "b c"), Row("a", "Card", "c")]
  {
    assert SortBy(ModelsOf(a), SimpleName) == [account, card, payment] by {
      SortByShort(payment, account, card, SimpleName);
      InsertShort(account, card, card, SimpleName);
      InsertShort(payment, account, card, SimpleName);
      InsertShort(payment, card, card, SimpleName);
    }
    ComponentRowsOfThree([a, b, c, d], NameOf, ModelsOf, a, account, card, payment);
    RowAAccount(a, b, c, d, user, account, card, payment, statement);
    RowACard(a, b, c, d, user, account, card, payment, statement);
    RowAPayment(a, b, c, d, user, account, card, payment, statement);
  }

  lemma RowsOfB(a: Component, b: Component, c: Component, d: Component,
                user: ClassInfo, account: ClassInfo, card: ClassInfo, payment: ClassInfo, statement: ClassInfo)
    requires Scenario(a, b, c, d, user, account, card, payment, statement)
    ensures ComponentRows([a, b, c, d], NameOf, ModelsOf, b) == [Row("b", "Account", "a c"), Row("b", "User", "c")]
  {
    assert SortBy(ModelsOf(b), SimpleName) == [account, user] by {
      SortByShort(user, user, account, SimpleName);
      InsertShort(user, account, account, SimpleName);
    }
    ComponentRowsOfTwo([a, b, c, d], NameOf, ModelsOf, b, account, user);
    RowBAccount(a, b, c, d, user, account, card, payment, statement);
    RowBUser(a, b, c, d, user, account, card, payment, statement);
  }

  lemma RowsOfC(a: Component, b: Component, c: Component, d: Component,
                user: ClassInfo, account: ClassInfo, card: ClassInfo, payment: ClassInfo, statement: ClassInfo)
    requires Scenario(a, b, c, d, user, account, card, payment, statement)
    ensures ComponentRows([a, b, c, d], NameOf, ModelsOf, c)
            == [Row("c", "Account", "a b"), Row("c", "Card", "a"), Row("c", "User", "b")]
  {
    assert SortBy(ModelsOf(c), SimpleName) == [account, card, user] by {
      SortByShort(user, account, card, SimpleName);
      InsertShort(account, card, card, SimpleName);
      InsertShort(user, account, card, SimpleName);
      InsertShort(user, card, card, SimpleName);
    }
    ComponentRowsOfThree([a, b, c, d], NameOf, ModelsOf, c, account, card, user);
    RowCAccount(a, b, c, d, user, account, card, payment, statement);
    RowCCard(a, b, c, d, user, account, card, payment, statement);
    RowCUser(a, b, c, d, user, account, card, payment, statement);
  }

  lemma RowsOfD(a: Component, b: Component, c: Component, d: Component,
                user: ClassInfo, account: ClassInfo, card: ClassInfo, payment: ClassInfo, statement: ClassInfo)
    requires Scenario(a, b, c, d, user, account, card, payment, statement)
    ensures ComponentRows([a, b, c, d], NameOf, ModelsOf, d) == []
  {
    assert SortBy(ModelsOf(d), SimpleName) == [statement] by {
      SortByShort(statement, statement, statement, SimpleName);
    }
    ComponentRowsOfOne([a, b, c, d], NameOf, ModelsOf, d, statement);
    RowDStatement(a, b, c, d, user, account, card, payment, statement);
  }

  /** The components of the scenario are in name order, and no two share a name. */
  lemma ScenarioNames(a: Component, b: Component, c: Component, d: Component,
                      user: ClassInfo, account: ClassInfo, card: ClassInfo, payment: ClassInfo, statement: ClassInfo)
    requires Scenario(a, b, c, d, user, account, card, payment, statement)
    ensures SortedBy([a, b, c, d], NameKey(NameOf))
    ensures KeyInjective([a, b, c, d], NameKey(NameOf))
  {
    var key := NameKey(NameOf);
    assert key(a) == NameOf(a).value && key(b) == NameOf(b).value && key(c) == NameOf(c).value && key(d) == NameOf(d).value;
    assert key(a) == "a" && key(b) == "b" && key(c) == "c" && key(d) == "d";
    assert Le("a", "b") && Le("a", "c") && Le("a", "d") && Le("b", "c") && Le("b", "d") && Le("c", "d");
    assert "a"[0] == 'a' && "b"[0] == 'b' && "c"[0] == 'c' && "d"[0] == 'd';
  }

  /** The report on the four components, whatever order the collection hands them out in:
      seven rows, none for d. */
  lemma ReportOfScenario(components: seq<Component>, a: Component, b: Component, c: Component, d: Component,
                         user: ClassInfo, account: ClassInfo, card: ClassInfo, payment: ClassInfo, statement: ClassInfo)
    requires Scenario(a, b, c, d, user, account, card, payment, statement)
    requires multiset(components) == multiset{a, b, c, d}
    ensures Rows(components, NameOf, ModelsOf)
            == [Row("a", "Account", "b c"), Row("a", "Card", "c"), Row("b", "Account", "a c"), Row("b", "User", "c"),
                Row("c", "Account", "a b"), Row("c", "Card", "a"), Row("c", "User", "b")]
  {
    ScenarioNames(a, b, c, d, user, account, card, payment, statement);
    RowsPermutation([a, b, c, d], components, NameOf, ModelsOf);
    RowsOfFour(a, b, c, d, NameOf, ModelsOf);
    RowsOfA(a, b, c, d, user, account, card, payment, statement);
    RowsOfB(a, b, c, d, user, account, card, payment, statement);
    RowsOfC(a, b, c, d, user, account, card, payment, statement);
    RowsOfD(a, b, c, d, user, account, card, payment, statement);
    Concatenation(Row("a", "Account", "b c"), Row("a", "Card", "c"), Row("b", "Account", "a c"), Row("b", "User", "c"),
                  Row("c", "Account", "a b"), Row("c", "Card", "a"), Row("c", "User", "b"));
  }
}
