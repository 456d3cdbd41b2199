/** The record ComponentName(String value): a component's label, free of the space character. */
module ComponentNames {
  import opened Wrappers
  import Strings

  datatype Name = Name(value: string)

  /** Every ComponentName in existence passed the compact constructor's check. */
  type ComponentName = n: Name | ' ' !in n.value witness Name("")

  /** The IllegalArgumentException raised by the compact constructor. */
  datatype NameError = ContainsSpace(value: string)

  /** new ComponentName(value): refused exactly when value contains ' ' (a tab or any other
      blank is accepted); on success value() gives back the argument unchanged. */
  function Create(value: string): (r: Result<ComponentName, NameError>)
    ensures r.Success? <==> (forall i :: 0 <= i < |value| ==> value[i] != ' ')
    ensures r.Success? ==> r.value.value == value
    ensures r.Failure? ==> r.error == ContainsSpace(value)
  {
    if ' ' in value then Failure(ContainsSpace(value)) else Success(Name(value))
  }

  /** compareTo delegates to the underlying strings. */
  function CompareTo(a: ComponentName, b: ComponentName): int {
    Strings.CompareTo(a.value, b.value)
  }

  /** compareTo is consistent with the record's equals. */
  lemma CompareToConsistentWithEquals(a: ComponentName, b: ComponentName)
    ensures CompareTo(a, b) == 0 <==> a == b
  {
    Strings.CompareToZero(a.value, b.value);
  }

  /** The Comparable contract: reversing the arguments negates the result ... */
  lemma CompareToAntisymmetric(a: ComponentName, b: ComponentName)
    ensures CompareTo(a, b) == -CompareTo(b, a)
  {
    Strings.CompareToAntisymmetric(a.value, b.value);
  }

  /** ... and the order is transitive. */
  lemma CompareToTransitive(a: ComponentName, b: ComponentName, c: ComponentName)
    requires CompareTo(a, b) < 0 && CompareTo(b, c) < 0
    ensures CompareTo(a, c) < 0
  {
    Strings.LessTransitive(a.value, b.value, c.value);
  }
}
