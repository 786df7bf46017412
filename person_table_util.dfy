/** `PersonTableUtil.getPersonList`: the five records the table starts with
    and is restored to. */
module PersonTableUtil {
  import opened JavaLang
  import opened Dates
  import opened PersonRecord

  /** The seed records as values, in table order; none has an id assigned. */
  function SeedRows(): seq<PersonData> {
    [ PersonData(0, Some("Ashwin"), Some("Sharan"), Some(Date(2012, 10, 11))),
      PersonData(0, Some("Advik"), Some("Sharan"), Some(Date(2012, 10, 11))),
      PersonData(0, Some("Layne"), Some("Estes"), Some(Date(2011, 12, 16))),
      PersonData(0, Some("Mason"), Some("Boyd"), Some(Date(2003, 4, 20))),
      PersonData(0, Some("Babalu"), Some("Sharan"), Some(Date(1980, 1, 10))) ]
  }

  /** The latest seed birth date. */
  const LatestSeedBirth: LocalDate := Date(2012, 10, 11)

  /** Every seed record has both names and a birth date no later than
      2012-10-11, the first two records' date. */
  lemma SeedRecordsWellFormed()
    ensures |SeedRows()| == 5
    ensures forall i :: 0 <= i < 5 ==>
      !IsBlank(SeedRows()[i].firstName) && !IsBlank(SeedRows()[i].lastName) &&
      SeedRows()[i].birthDate.Some? && !IsAfter(SeedRows()[i].birthDate.value, LatestSeedBirth)
    ensures SeedRows()[0].birthDate == Some(LatestSeedBirth)
  {
    var s := SeedRows();
    NonBlankName("Ashwin");
    NonBlankName("Advik");
    NonBlankName("Layne");
    NonBlankName("Mason");
    NonBlankName("Babalu");
    NonBlankName("Sharan");
    NonBlankName("Estes");
    NonBlankName("Boyd");
    forall i | 0 <= i < 5
      ensures !IsBlank(s[i].firstName) && !IsBlank(s[i].lastName)
      ensures s[i].birthDate.Some? && !IsAfter(s[i].birthDate.value, LatestSeedBirth)
    {
      if i == 0 {
        assert s[0].firstName == Some("Ashwin") && s[0].lastName == Some("Sharan");
      } else if i == 1 {
        assert s[1].firstName == Some("Advik") && s[1].lastName == Some("Sharan");
      } else if i == 2 {
        assert s[2].firstName == Some("Layne") && s[2].lastName == Some("Estes");
      } else if i == 3 {
        assert s[3].firstName == Some("Mason") && s[3].lastName == Some("Boyd");
      } else {
        assert s[4].firstName == Some("Babalu") && s[4].lastName == Some("Sharan");
      }
    }
  }

  /** Every seed record passes validation exactly when today is on or after
      2012-10-11. */
  lemma SeedValidIffTodayNotBefore(today: LocalDate)
    ensures (forall i :: 0 <= i < |SeedRows()| ==>
               PersonOk(SeedRows()[i].firstName, SeedRows()[i].lastName, SeedRows()[i].birthDate, today))
            <==> !IsAfter(LatestSeedBirth, today)
  {
    SeedRecordsWellFormed();
    var s := SeedRows();
    if !IsAfter(LatestSeedBirth, today) {
      forall i | 0 <= i < 5
        ensures PersonOk(s[i].firstName, s[i].lastName, s[i].birthDate, today)
      {
        IsAfterStrictTotalOrder(s[i].birthDate.value, LatestSeedBirth, today);
      }
    }
  }

  /** `getPersonList`: five new `Person` objects, holding the seed values,
      in a new list. */
  method GetPersonList() returns (list: seq<Person>)
    ensures |list| == |SeedRows()|
    ensures forall i :: 0 <= i < |list| ==> fresh(list[i]) && list[i].Data() == SeedRows()[i]
    ensures forall i, j :: 0 <= i < j < |list| ==> list[i] != list[j]
  {
    var p1 := new Person(Some("Ashwin"), Some("Sharan"), Some(Date(2012, 10, 11)));
    var p2 := new Person(Some("Advik"), Some("Sharan"), Some(Date(2012, 10, 11)));
    var p3 := new Person(Some("Layne"), Some("Estes"), Some(Date(2011, 12, 16)));
    var p4 := new Person(Some("Mason"), Some("Boyd"), Some(Date(2003, 4, 20)));
    var p5 := new Person(Some("Babalu"), Some("Sharan"), Some(Date(1980, 1, 10)));
    list := [p1, p2, p3, p4, p5];
  }
}
