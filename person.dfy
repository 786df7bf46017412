/** The `Person` record of the table: four mutable fields, setters, the
    validation rules that fill a caller's error list, `save` and `toString`.
    "Today" is a parameter wherever the Java code asks the clock. */
module PersonRecord {
  import opened JavaLang
  import opened Dates

  const FirstNameMessage: string := "First name must contain minimum one character."
  const LastNameMessage: string := "Last name must contain minimum one character."
  const BirthDateMessage: string := "Birth date must not be in future."

  /** The value held by a `Person` object at one moment. */
  datatype PersonData = PersonData(
    personId: int32,
    firstName: Option<string>,
    lastName: Option<string>,
    birthDate: Option<LocalDate>)

  // ---------------------------------------------------------------------
  // The validation rules as functions of the checked values.

  /** The birth-date rule: an absent date passes, a present one must not be after today. */
  predicate BirthDateOk(bdate: Option<LocalDate>, today: LocalDate) {
    bdate.None? || !IsAfter(bdate.value, today)
  }

  /** What the birth-date check appends to the error list. */
  function BirthDateErrors(bdate: Option<LocalDate>, today: LocalDate): seq<string> {
    if bdate.Some? && IsAfter(bdate.value, today) then [BirthDateMessage] else []
  }

  /** The person rule: both names non-blank and the birth date acceptable. */
  predicate PersonOk(first: Option<string>, last: Option<string>, bdate: Option<LocalDate>, today: LocalDate) {
    !IsBlank(first) && !IsBlank(last) && BirthDateOk(bdate, today)
  }

  /** What the person check appends, in the order the checks run. */
  function PersonErrors(first: Option<string>, last: Option<string>, bdate: Option<LocalDate>, today: LocalDate): seq<string> {
    (if IsBlank(first) then [FirstNameMessage] else []) +
    (if IsBlank(last) then [LastNameMessage] else []) +
    BirthDateErrors(bdate, today)
  }

  /** How many of the three checks fail. */
  function FailedChecks(first: Option<string>, last: Option<string>, bdate: Option<LocalDate>, today: LocalDate): nat {
    (if IsBlank(first) then 1 else 0) +
    (if IsBlank(last) then 1 else 0) +
    (if BirthDateOk(bdate, today) then 0 else 1)
  }

  /** The three messages are told apart by their lengths. */
  lemma MessagesDistinct()
    ensures FirstNameMessage != LastNameMessage
    ensures FirstNameMessage != BirthDateMessage
    ensures LastNameMessage != BirthDateMessage
  {
    assert |FirstNameMessage| == 46 && |LastNameMessage| == 45 && |BirthDateMessage| == 33;
  }

  /** A name whose first character is visible is not blank. */
  lemma NonBlankName(name: string)
    requires |name| > 0 && !IsTrimmable(name[0])
    ensures !IsBlank(Some(name))
  {
  }

  /** Position of each message in the fixed check order. */
  function MessageRank(m: string): int {
    if m == FirstNameMessage then 0
    else if m == LastNameMessage then 1
    else if m == BirthDateMessage then 2
    else 3
  }

  /** The birth-date check reports exactly when it fails, with exactly one message. */
  lemma BirthDateErrorsIffInvalid(bdate: Option<LocalDate>, today: LocalDate)
    ensures BirthDateOk(bdate, today) <==> BirthDateErrors(bdate, today) == []
    ensures !BirthDateOk(bdate, today) ==> BirthDateErrors(bdate, today) == [BirthDateMessage]
  {
  }

  /** A person passes exactly when nothing is reported. */
  lemma PersonOkIffNoErrors(first: Option<string>, last: Option<string>, bdate: Option<LocalDate>, today: LocalDate)
    ensures PersonOk(first, last, bdate, today) <==> PersonErrors(first, last, bdate, today) == []
  {
  }

  /** Each message is reported exactly when its own check fails. */
  lemma MessageIffCheckFails(first: Option<string>, last: Option<string>, bdate: Option<LocalDate>, today: LocalDate)
    ensures FirstNameMessage in PersonErrors(first, last, bdate, today) <==> IsBlank(first)
    ensures LastNameMessage in PersonErrors(first, last, bdate, today) <==> IsBlank(last)
    ensures BirthDateMessage in PersonErrors(first, last, bdate, today) <==> !BirthDateOk(bdate, today)
  {
    MessagesDistinct();
    var f := if IsBlank(first) then [FirstNameMessage] else [];
    var l := if IsBlank(last) then [LastNameMessage] else [];
    var b := BirthDateErrors(bdate, today);
    BirthDateErrorsIffInvalid(bdate, today);
    assert PersonErrors(first, last, bdate, today) == f + l + b;
    assert FirstNameMessage in f + l + b <==> FirstNameMessage in f;
    assert LastNameMessage in f + l + b <==> LastNameMessage in l;
    assert BirthDateMessage in f + l + b <==> BirthDateMessage in b;
  }

  /** Checking goes on after a failure: one message per failed check, at
      most three, each message at most once and in the order first name,
      last name, birth date. */
  lemma ErrorsCountedAndOrdered(first: Option<string>, last: Option<string>, bdate: Option<LocalDate>, today: LocalDate)
    ensures var errs := PersonErrors(first, last, bdate, today);
      |errs| == FailedChecks(first, last, bdate, today) <= 3 &&
      (forall i :: 0 <= i < |errs| ==> MessageRank(errs[i]) < 3) &&
      (forall i, j :: 0 <= i < j < |errs| ==> MessageRank(errs[i]) < MessageRank(errs[j]))
  {
    MessagesDistinct();
    assert MessageRank(FirstNameMessage) == 0;
    assert MessageRank(LastNameMessage) == 1;
    assert MessageRank(BirthDateMessage) == 2;
    var f := if IsBlank(first) then [FirstNameMessage] else [];
    var l := if IsBlank(last) then [LastNameMessage] else [];
    var b := BirthDateErrors(bdate, today);
    var errs := f + l + b;
    assert errs == PersonErrors(first, last, bdate, today);
    forall i | 0 <= i < |errs|
      ensures MessageRank(errs[i]) == (if i < |f| then 0 else if i < |f| + |l| then 1 else 2)
    {
      if i >= |f| + |l| {
        assert errs[i] == b[i - |f| - |l|];
      } else if i >= |f| {
        assert errs[i] == l[i - |f|];
      }
    }
  }

  /** A name made only of spaces, tabs or other characters at or below
      U+0020 is rejected like a missing one. */
  lemma WhitespaceNameRejected(first: string, last: Option<string>, bdate: Option<LocalDate>, today: LocalDate)
    requires forall i :: 0 <= i < |first| ==> first[i] <= ' '
    ensures !PersonOk(Some(first), last, bdate, today)
    ensures FirstNameMessage in PersonErrors(Some(first), last, bdate, today)
  {
  }

  // ---------------------------------------------------------------------
  // `toString`.

  /** String concatenation of a possibly-null string: `null` prints as "null". */
  function NullableText(s: Option<string>): string {
    if s.None? then "null" else s.value
  }

  function NullableDateText(d: Option<LocalDate>): string {
    if d.None? then "null" else DateText(d.value)
  }

  /** `Person.toString` of a record value. */
  function PersonText(p: PersonData): (r: string)
    ensures |r| >= 11 + |IntText(p.personId)|
    ensures r[..10] == "[personId=" && r[|r| - 1] == ']'
    ensures r[10..10 + |IntText(p.personId)|] == IntText(p.personId)
  {
    "[personId=" + IntText(p.personId) +
    ", firstName=" + NullableText(p.firstName) +
    ", lastName=" + NullableText(p.lastName) +
    ", birthDate=" + NullableDateText(p.birthDate) + "]"
  }

  /** The id written by `toString` reads back as the record's id. */
  lemma PersonTextShowsId(p: PersonData)
    ensures var t := PersonText(p)[10..10 + |IntText(p.personId)|];
      |t| >= 1 && (t[0] == '-' ==> IsDigits(t[1..])) && (t[0] != '-' ==> IsDigits(t)) &&
      ParseInt(t) == p.personId as int
  {
    IntTextRoundTrip(p.personId);
  }

  // ---------------------------------------------------------------------
  // The objects.

  /** The caller-supplied `List<String>` the checks append to. */
  class ErrorList {
    var items: seq<string>

    /** `new ArrayList<>()`. */
    constructor ()
      ensures items == []
    {
      items := [];
    }

    /** `List.add`. */
    method Add(message: string)
      modifies this
      ensures items == old(items) + [message]
    {
      items := items + [message];
    }
  }

  class Person {
    var personId: int32
    var firstName: Option<string>
    var lastName: Option<string>
    var birthDate: Option<LocalDate>

    /** The record's current value. */
    function Data(): PersonData
      reads this
    {
      PersonData(personId, firstName, lastName, birthDate)
    }

    /** `Person()`: every field null, the id left at its default 0. */
    constructor Empty()
      ensures Data() == PersonData(0, None, None, None)
    {
      personId := 0;
      firstName := None;
      lastName := None;
      birthDate := None;
    }

    /** `Person(firstName, lastName, birthDate)`: stores the three values;
        no id is assigned, so it stays 0. */
    constructor (firstName: Option<string>, lastName: Option<string>, birthDate: Option<LocalDate>)
      ensures Data() == PersonData(0, firstName, lastName, birthDate)
    {
      this.personId := 0;
      this.firstName := firstName;
      this.lastName := lastName;
      this.birthDate := birthDate;
    }

    method SetPersonId(personId: int32)
      modifies this
      ensures Data() == old(Data()).(personId := personId)
    {
      this.personId := personId;
    }

    method SetFirstName(firstName: Option<string>)
      modifies this
      ensures Data() == old(Data()).(firstName := firstName)
    {
      this.firstName := firstName;
    }

    method SetLastName(lastName: Option<string>)
      modifies this
      ensures Data() == old(Data()).(lastName := lastName)
    {
      this.lastName := lastName;
    }

    method SetBirthDate(birthDate: Option<LocalDate>)
      modifies this
      ensures Data() == old(Data()).(birthDate := birthDate)
    {
      this.birthDate := birthDate;
    }

    /** `isValidBirthDate(bdate, errorList)`: appends the future-date message
        when the date is after today. */
    method IsValidBirthDate(bdate: Option<LocalDate>, today: LocalDate, errorList: ErrorList) returns (valid: bool)
      modifies errorList
      ensures valid == BirthDateOk(bdate, today)
      ensures errorList.items == old(errorList.items) + BirthDateErrors(bdate, today)
    {
      if bdate.None? {
        return true;
      }
      if IsAfter(bdate.value, today) {
        errorList.Add(BirthDateMessage);
        return false;
      }
      return true;
    }

    /** `isValidBirthDate(bdate)`: the same check against a throw-away list. */
    method IsValidBirthDateQuiet(bdate: Option<LocalDate>, today: LocalDate) returns (valid: bool)
      ensures valid <==> bdate.None? || !IsAfter(bdate.value, today)
    {
      var scratch := new ErrorList();
      valid := IsValidBirthDate(bdate, today, scratch);
    }

    /** `isValidPerson(p, errorList)`: checks `p`'s names but, as written,
        the birth date of the receiver, not of `p`. Every check runs. */
    method IsValidPersonOf(p: Person, today: LocalDate, errorList: ErrorList) returns (isValid: bool)
      modifies errorList
      ensures isValid == PersonOk(p.firstName, p.lastName, birthDate, today)
      ensures errorList.items == old(errorList.items) + PersonErrors(p.firstName, p.lastName, birthDate, today)
    {
      ghost var before := errorList.items;
      isValid := true;
      var fn := p.firstName;
      if fn.None? || |Trim(fn.value)| == 0 {
        errorList.Add(FirstNameMessage);
        isValid := false;
      }
      ghost var firstErrs := if IsBlank(fn) then [FirstNameMessage] else [];
      assert errorList.items == before + firstErrs;
      var ln := p.lastName;
      if ln.None? || |Trim(ln.value)| == 0 {
        errorList.Add(LastNameMessage);
        isValid := false;
      }
      ghost var lastErrs := if IsBlank(ln) then [LastNameMessage] else [];
      assert errorList.items == before + (firstErrs + lastErrs);
      assert isValid == (!IsBlank(fn) && !IsBlank(ln));
      var dateOk := IsValidBirthDate(birthDate, today, errorList);
      if !dateOk {
        isValid := false;
      }
      assert errorList.items == before + (firstErrs + lastErrs + BirthDateErrors(birthDate, today));
    }

    /** `isValidPerson(errorList)`: the receiver checked against itself. */
    method IsValidPerson(today: LocalDate, errorList: ErrorList) returns (isValid: bool)
      modifies errorList
      ensures isValid == PersonOk(firstName, lastName, birthDate, today)
      ensures errorList.items == old(errorList.items) + PersonErrors(firstName, lastName, birthDate, today)
    {
      isValid := IsValidPersonOf(this, today, errorList);
    }

    /** `save(errorList)`: succeeds exactly when validation does, and then
        writes `"Saved " + toString()` (returned here as `output`). No field
        of the record changes. */
    method Save(today: LocalDate, errorList: ErrorList) returns (isSaved: bool, output: Option<string>)
      modifies errorList
      ensures isSaved == PersonOk(firstName, lastName, birthDate, today)
      ensures errorList.items == old(errorList.items) + PersonErrors(firstName, lastName, birthDate, today)
      ensures output == if isSaved then Some("Saved " + PersonText(Data())) else None
      ensures Data() == old(Data())
    {
      isSaved := false;
      output := None;
      var ok := IsValidPerson(today, errorList);
      if ok {
        output := Some("Saved " + PersonText(Data()));
        isSaved := true;
      }
    }
  }

  /** The two-argument `isValidPerson` judges another record by the
      receiver's birth date: a receiver with no birth date accepts a record
      born in the future that rejects itself. */
  method ReceiverBirthDateQuirk(today: LocalDate) returns (receiverSays: bool, recordSays: bool)
    requires today.year < MaxYear
    ensures receiverSays && !recordSays
  {
    var future: LocalDate := Date(today.year + 1, 1, 1);
    assert IsAfter(future, today);
    var ana, ruiz, luis, gil := "Ana", "Ruiz", "Luis", "Gil";
    assert !IsTrimmable(ana[0]) && !IsTrimmable(ruiz[0]) && !IsTrimmable(luis[0]) && !IsTrimmable(gil[0]);
    var receiver := new Person(Some(ana), Some(ruiz), None);
    var p := new Person(Some(luis), Some(gil), Some(future));
    var errs := new ErrorList();
    receiverSays := receiver.IsValidPersonOf(p, today, errs);
    var ownErrs := new ErrorList();
    recordSays := p.IsValidPerson(today, ownErrs);
  }
}
