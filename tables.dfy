/**
 * What the home page and the listing share: the "quantity type age" cell that
 * both pages (and the notice detail) build from a notice, and the table body
 * the pages append their rows to.
 */
module Tables {
  import opened JsStrings
  import opened Data

  /** `${n.amount} ${n.type} ${n.age} ${n.ageUnit}` */
  function QtyTypeAge(n: Notice): (r: string)
    ensures |r| >= 9
  {
    NatToString(n.amount) + " " + PetTypeName(n.petType) + " " + NatToString(n.age) + " "
      + AgeUnitName(n.ageUnit)
  }

  predicate NoBlank(s: string)
  {
    forall k | 0 <= k < |s| :: s[k] != ' '
  }

  /** Two strings joined by a blank can be split again at the last blank. */
  lemma SplitAtLastBlank(x: string, y: string, x': string, y': string)
    requires NoBlank(y) && NoBlank(y')
    requires x + " " + y == x' + " " + y'
    ensures x == x' && y == y'
  {
    var s := x + " " + y;
    assert forall k | |x| < k < |s| :: s[k] == y[k - |x| - 1];
    assert forall k | |x'| < k < |s| :: s[k] == y'[k - |x'| - 1];
    assert s[|x|] == ' ' && s[|x'|] == ' ';
    assert |x| == |x'|;
    assert x == s[..|x|] == x';
    assert y == s[|x| + 1..] == y';
  }

  lemma NumeralHasNoBlank(n: nat)
    ensures NoBlank(NatToString(n))
  {
    var s := NatToString(n);
    forall k | 0 <= k < |s| ensures s[k] != ' ' {
      assert IsDigit(s[k]);
    }
  }

  lemma NamesHaveNoBlank(n: Notice)
    ensures NoBlank(PetTypeName(n.petType)) && NoBlank(AgeUnitName(n.ageUnit))
  {
  }

  /** The cell loses nothing: equal cells come from equal amounts, types, ages
      and age units. */
  lemma QtyTypeAgeInjective(a: Notice, b: Notice)
    requires QtyTypeAge(a) == QtyTypeAge(b)
    ensures a.amount == b.amount && a.petType == b.petType
    ensures a.age == b.age && a.ageUnit == b.ageUnit
  {
    NumeralHasNoBlank(a.amount);
    NumeralHasNoBlank(b.amount);
    NumeralHasNoBlank(a.age);
    NumeralHasNoBlank(b.age);
    NamesHaveNoBlank(a);
    NamesHaveNoBlank(b);
    var g := NatToString(a.amount) + " " + PetTypeName(a.petType) + " " + NatToString(a.age);
    var h := NatToString(b.amount) + " " + PetTypeName(b.petType) + " " + NatToString(b.age);
    SplitAtLastBlank(g, AgeUnitName(a.ageUnit), h, AgeUnitName(b.ageUnit));
    var e := NatToString(a.amount) + " " + PetTypeName(a.petType);
    var f := NatToString(b.amount) + " " + PetTypeName(b.petType);
    SplitAtLastBlank(e, NatToString(a.age), f, NatToString(b.age));
    SplitAtLastBlank(NatToString(a.amount), PetTypeName(a.petType), NatToString(b.amount), PetTypeName(b.petType));
    NatToStringInjective(a.amount, b.amount);
    NatToStringInjective(a.age, b.age);
  }

  /** A `<tbody>`: the rows appended so far, each a list of cell texts. */
  class TableBody {
    var rows: seq<seq<string>>

    /** Empty, as the markup declares it. */
    constructor ()
      ensures rows == []
    {
      rows := [];
    }

    /** `tbody.appendChild(tr)` */
    method Append(row: seq<string>)
      modifies this
      ensures rows == old(rows) + [row]
    {
      rows := rows + [row];
    }
  }
}
