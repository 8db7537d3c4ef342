/** The patients page: the patient list held as component state, the search
    box that filters it, the add-patient form's validation rules, and the
    add-patient handler that puts a new record with a generated id in front. */
module Patients {
  import opened Ui
  import opened Text
  import opened Serials

  datatype Patient = Patient(
    id: string,
    name: string,
    age: int,
    gender: string,
    phone: string,
    email: string,
    address: string,
    status: string,
    date: string)

  const Prefix: string := "PT-"

  const InitialPatients: seq<Patient> := [
    Patient("PT-1001", "John Smith", 45, "Male", "(555) 123-4567", "john@example.com", "123 Main St, Anytown", "Active", "2025-03-15"),
    Patient("PT-1002", "Sarah Johnson", 32, "Female", "(555) 234-5678", "sarah@example.com", "456 Oak Ave, Somewhere", "Admitted", "2025-03-28"),
    Patient("PT-1003", "Michael Brown", 60, "Male", "(555) 345-6789", "michael@example.com", "789 Pine Rd, Elsewhere", "Discharged", "2025-04-02"),
    Patient("PT-1004", "Emily Davis", 28, "Female", "(555) 456-7890", "emily@example.com", "101 Maple Dr, Nowhere", "Scheduled", "2025-04-10"),
    Patient("PT-1005", "Robert Wilson", 72, "Male", "(555) 567-8901", "robert@example.com", "202 Elm St, Somewhere", "Critical", "2025-04-05"),
    Patient("PT-1006", "Jennifer Lee", 39, "Female", "(555) 678-9012", "jennifer@example.com", "303 Cedar Ln, Anytown", "Active", "2025-03-20"),
    Patient("PT-1007", "David Miller", 51, "Male", "(555) 789-0123", "david@example.com", "404 Birch Ave, Elsewhere", "Admitted", "2025-04-01")
  ]

  function Ids(ps: seq<Patient>): seq<string>
  {
    seq(|ps|, i requires 0 <= i < |ps| => ps[i].id)
  }

  // ---------------------------------------------------------------------
  // Search

  /** A patient matches when the lowered query occurs in its lowered name or
      lowered id. */
  predicate Matches(p: Patient, query: string)
  {
    Contains(Lower(p.name), Lower(query)) || Contains(Lower(p.id), Lower(query))
  }

  /** xs is obtained from ys by dropping elements, keeping the order. */
  ghost predicate Subsequence<T>(xs: seq<T>, ys: seq<T>)
    decreases |ys|
  {
    xs == [] || (ys != [] && ((xs[0] == ys[0] && Subsequence(xs[1..], ys[1..])) || Subsequence(xs, ys[1..])))
  }

  /** `patients.filter(...)` with the match above. */
  function Filter(ps: seq<Patient>, query: string): (r: seq<Patient>)
    ensures Subsequence(r, ps)
    ensures forall p :: p in r <==> p in ps && Matches(p, query)
    ensures forall p :: multiset(r)[p] == if Matches(p, query) then multiset(ps)[p] else 0
  {
    if ps == [] then []
    else
      var rest := Filter(ps[1..], query);
      assert forall p :: p in ps <==> p == ps[0] || p in ps[1..];
      assert ps == [ps[0]] + ps[1..];
      assert multiset(ps) == multiset{ps[0]} + multiset(ps[1..]);
      if Matches(ps[0], query) then
        assert ([ps[0]] + rest)[1..] == rest;
        [ps[0]] + rest
      else
        rest
  }

  /** `filteredPatients`: the whole list when the query is empty, the
      filtered list otherwise. */
  function FilteredPatients(ps: seq<Patient>, query: string): seq<Patient>
  {
    if query == "" then ps else Filter(ps, query)
  }

  /** The shown list is an order-preserving selection of the patients, and a
      patient is shown exactly when it matches the query. */
  lemma FilteredPatientsSpec(ps: seq<Patient>, query: string)
    ensures Subsequence(FilteredPatients(ps, query), ps)
    ensures forall p :: p in FilteredPatients(ps, query) <==> p in ps && Matches(p, query)
    ensures forall p :: multiset(FilteredPatients(ps, query))[p] == if Matches(p, query) then multiset(ps)[p] else 0
  {
    if query == "" {
      SubsequenceRefl(ps);
      forall p | p in ps ensures Matches(p, query) {
        ContainsEmpty(Lower(p.name));
      }
    }
  }

  lemma {:induction false} SubsequenceRefl<T>(xs: seq<T>)
    ensures Subsequence(xs, xs)
    decreases |xs|
  {
    if xs != [] {
      SubsequenceRefl(xs[1..]);
    }
  }

  /** An empty query shows every patient in the original order; filtering
      with it would keep every patient too. */
  lemma {:induction false} EmptyQueryKeepsAll(ps: seq<Patient>)
    ensures FilteredPatients(ps, "") == ps
    ensures Filter(ps, "") == ps
    decreases |ps|
  {
    if ps != [] {
      ContainsEmpty(Lower(ps[0].name));
      EmptyQueryKeepsAll(ps[1..]);
    }
  }

  lemma {:induction false} FilterSameMatches(ps: seq<Patient>, q: string, q': string)
    requires forall p :: Matches(p, q) == Matches(p, q')
    ensures Filter(ps, q) == Filter(ps, q')
    decreases |ps|
  {
    if ps != [] {
      FilterSameMatches(ps[1..], q, q');
    }
  }

  /** The search ignores the case of the query. */
  lemma QueryCaseInsensitive(ps: seq<Patient>, query: string)
    ensures FilteredPatients(ps, query) == FilteredPatients(ps, Lower(query))
  {
    LowerFacts(query);
    FilterSameMatches(ps, query, Lower(query));
  }

  /** Typing a patient's id, in any case, shows that patient. */
  lemma SearchById(ps: seq<Patient>, p: Patient, query: string)
    requires p in ps
    requires Lower(query) == Lower(p.id)
    ensures p in FilteredPatients(ps, query)
  {
    FilteredPatientsSpec(ps, query);
    ContainsIff(Lower(p.id), Lower(query));
    assert OccursAt(Lower(p.id), Lower(query), 0);
  }

  // ---------------------------------------------------------------------
  // Add-patient form

  /** The values the add-patient form hands over; the optional fields may be
      left undefined. */
  datatype PatientForm = PatientForm(
    name: string,
    age: int,
    gender: string,
    phone: string,
    email: Option<string>,
    address: Option<string>,
    status: string)

  datatype Field = Name | Age | Gender | Phone | Email | Address | Status

  /** The schema's rule for one field; `isEmail` stands for the email format
      check of the validation library. Lengths are JavaScript lengths, counted
      in UTF-16 code units. */
  predicate FieldOk(f: PatientForm, field: Field, isEmail: string -> bool)
  {
    match field
    case Name => Utf16Length(f.name) >= 2
    case Age => 0 <= f.age <= 120
    case Gender => Utf16Length(f.gender) >= 1
    case Phone => Utf16Length(f.phone) >= 5
    case Email => f.email.None? || f.email.value == "" || isEmail(f.email.value)
    case Address => true
    case Status => Utf16Length(f.status) >= 1
  }

  const SchemaOrder: seq<Field> := [Name, Age, Gender, Phone, Email, Address, Status]

  function Failing(fields: seq<Field>, f: PatientForm, isEmail: string -> bool): (r: seq<Field>)
    ensures forall field :: field in r <==> field in fields && !FieldOk(f, field, isEmail)
  {
    if fields == [] then []
    else if FieldOk(f, fields[0], isEmail) then Failing(fields[1..], f, isEmail)
    else [fields[0]] + Failing(fields[1..], f, isEmail)
  }

  /** The fields the form flags, in schema order. */
  function Errors(f: PatientForm, isEmail: string -> bool): seq<Field>
  {
    Failing(SchemaOrder, f, isEmail)
  }

  /** The form is submitted only when no field is flagged. */
  predicate Valid(f: PatientForm, isEmail: string -> bool)
  {
    Errors(f, isEmail) == []
  }

  /** A field is flagged exactly when its rule fails, and the form is valid
      exactly when name has two UTF-16 units or more, the age lies in 0..120,
      gender and status are chosen, the phone has five UTF-16 units or more
      and the email, when given and not empty, is well-formed. */
  lemma ValidIffRules(f: PatientForm, isEmail: string -> bool)
    ensures forall field :: field in Errors(f, isEmail) <==> !FieldOk(f, field, isEmail)
    ensures Valid(f, isEmail) <==>
              && Utf16Length(f.name) >= 2
              && 0 <= f.age <= 120
              && Utf16Length(f.gender) >= 1
              && Utf16Length(f.phone) >= 5
              && (f.email.None? || f.email.value == "" || isEmail(f.email.value))
              && Utf16Length(f.status) >= 1
  {
    var errs := Errors(f, isEmail);
    forall field
      ensures field in SchemaOrder
    {
      match field
      case Name => assert SchemaOrder[0] == Name;
      case Age => assert SchemaOrder[1] == Age;
      case Gender => assert SchemaOrder[2] == Gender;
      case Phone => assert SchemaOrder[3] == Phone;
      case Email => assert SchemaOrder[4] == Email;
      case Address => assert SchemaOrder[5] == Address;
      case Status => assert SchemaOrder[6] == Status;
    }
    if errs == [] {
      assert FieldOk(f, Name, isEmail) && FieldOk(f, Age, isEmail) && FieldOk(f, Gender, isEmail);
      assert FieldOk(f, Phone, isEmail) && FieldOk(f, Email, isEmail) && FieldOk(f, Status, isEmail);
    } else {
      assert errs[0] in errs;
      assert !FieldOk(f, errs[0], isEmail);
    }
  }

  /** A one-character name passes the name rule exactly when the character
      is astral (an emoji, say), since JavaScript counts it as two units. */
  lemma SingleCharacterName(f: PatientForm, isEmail: string -> bool)
    requires |f.name| == 1
    ensures FieldOk(f, Name, isEmail) <==> IsAstral(f.name[0])
  {
    assert f.name[1..] == [];
  }

  /** `value || ''`: an undefined (or empty) optional field is stored as "". */
  function OrEmpty(s: Option<string>): string
  {
    if s.Some? then s.value else ""
  }

  /** The record `handleAddPatient` builds when the list holds `count`
      patients; `today` is the current date, which the page reads from the
      clock. */
  function NewPatient(data: PatientForm, count: nat, today: string): Patient
  {
    Patient(SerialId(Prefix, count + 1), data.name, data.age, data.gender, data.phone,
            OrEmpty(data.email), OrEmpty(data.address), data.status, today)
  }

  /** The new record's id is PT- followed by 1000 + count + 1 and its other
      fields come from the form, a missing email or address becoming "". */
  lemma NewPatientRecord(data: PatientForm, count: nat, today: string)
    ensures NewPatient(data, count, today).id == "PT-" + NatToString(1001 + count)
    ensures ParseDecimal(NewPatient(data, count, today).id[3..]) == 1001 + count
    ensures data.email.None? ==> NewPatient(data, count, today).email == ""
    ensures data.email.Some? ==> NewPatient(data, count, today).email == data.email.value
    ensures data.address.None? ==> NewPatient(data, count, today).address == ""
    ensures data.address.Some? ==> NewPatient(data, count, today).address == data.address.value
    ensures NewPatient(data, count, today).name == data.name && NewPatient(data, count, today).age == data.age
    ensures NewPatient(data, count, today).gender == data.gender && NewPatient(data, count, today).phone == data.phone
    ensures NewPatient(data, count, today).status == data.status && NewPatient(data, count, today).date == today
  {
    ParseNatToString(1001 + count);
    assert NewPatient(data, count, today).id[3..] == NatToString(1001 + count);
  }

  lemma IdsPrepend(p: Patient, ps: seq<Patient>)
    ensures Ids([p] + ps) == [p.id] + Ids(ps)
  {
  }

  /** The seed ids, read in order, are the serials 1..7. */
  lemma SeedIdsAscending(ids: seq<string>)
    requires ids == ["PT-1001", "PT-1002", "PT-1003", "PT-1004", "PT-1005", "PT-1006", "PT-1007"]
    ensures ids == SerialRange(Prefix, 7)
  {
    var prefix := "PT-";
    SeedId(prefix, 1);
    SeedId(prefix, 2);
    SeedId(prefix, 3);
    SeedId(prefix, 4);
    SeedId(prefix, 5);
    SeedId(prefix, 6);
    SeedId(prefix, 7);
    AscendingIsRange(prefix, ids);
    assert prefix == Prefix;
  }

  /** The seed list carries PT-1001 .. PT-1007 in order. */
  lemma InitialPatientsAscending()
    ensures Ids(InitialPatients) == SerialRange(Prefix, 7)
  {
    assert Ids(InitialPatients) == ["PT-1001", "PT-1002", "PT-1003", "PT-1004", "PT-1005", "PT-1006", "PT-1007"];
    SeedIdsAscending(Ids(InitialPatients));
  }

  /** The seed list is numbered, so its ids are distinct. */
  lemma InitialPatientsNumbered()
    ensures Numbered(Prefix, Ids(InitialPatients))
  {
    InitialPatientsAscending();
    RangeIsNumbered(Prefix, 7);
  }

  /** Badge for a patient status; unknown statuses look like Active ones. */
  function StatusBadge(status: string): BadgeVariant
  {
    if status == "Active" then Outline
    else if status == "Discharged" then Secondary
    else if status == "Admitted" then Default
    else if status == "Critical" then Destructive
    else Outline
  }

  lemma StatusBadgeFacts(status: string)
    ensures StatusBadge(status) == Destructive <==> status == "Critical"
    ensures StatusBadge(status) == Default <==> status == "Admitted"
    ensures StatusBadge(status) == Secondary <==> status == "Discharged"
    ensures StatusBadge("Scheduled") == StatusBadge("Active") == Outline
  {
  }

  /** The page's patient list. */
  class PatientDirectory {
    var patients: seq<Patient>

    constructor ()
      ensures patients == InitialPatients
      ensures Numbered(Prefix, Ids(patients))
    {
      patients := InitialPatients;
      InitialPatientsNumbered();
    }

    /** `handleAddPatient`: the new record goes in front of the old list, and
        a list numbered PT-1001 .. PT-(1000 + n) stays numbered. */
    method AddPatient(data: PatientForm, today: string)
      modifies this
      ensures patients == [NewPatient(data, |old(patients)|, today)] + old(patients)
      ensures |patients| == |old(patients)| + 1 && patients[1..] == old(patients)
      ensures Numbered(Prefix, Ids(old(patients))) ==> Numbered(Prefix, Ids(patients))
    {
      var p := NewPatient(data, |patients|, today);
      IdsPrepend(p, patients);
      if Numbered(Prefix, Ids(patients)) {
        NumberedPrepend(Prefix, Ids(patients));
      }
      patients := [p] + patients;
    }

    /** Submitting the form: the schema is checked first and the handler runs
        only on valid data. */
    method Submit(data: PatientForm, isEmail: string -> bool, today: string) returns (added: bool)
      modifies this
      ensures added == Valid(data, isEmail)
      ensures added ==> patients == [NewPatient(data, |old(patients)|, today)] + old(patients)
      ensures !added ==> patients == old(patients)
    {
      added := Valid(data, isEmail);
      if added {
        AddPatient(data, today);
      }
    }
  }
}
