/** The doctors page: the doctor list held as component state, the four
    statistics cards computed from it, the status badge, and the add-doctor
    handler that appends a record with a generated id. */
module Doctors {
  import opened Ui
  import opened Text
  import opened Serials

  datatype Doctor = Doctor(
    id: string,
    name: string,
    specialty: string,
    department: string,
    phone: string,
    email: string,
    status: string,
    patients: nat)

  /** The values the add-doctor dialog hands over. */
  datatype DoctorInput = DoctorInput(
    name: string,
    specialty: string,
    department: string,
    phone: string,
    email: string,
    status: string)

  const Prefix: string := "DR-"

  const InitialDoctors: seq<Doctor> := [
    Doctor("DR-1001", "Dr. Sarah Johnson", "Cardiology", "Cardiac Care", "(555) 123-7890", "sarah.johnson@hospital.com", "Active", 34),
    Doctor("DR-1002", "Dr. Michael Lee", "Neurology", "Neuroscience", "(555) 234-8901", "michael.lee@hospital.com", "Active", 27),
    Doctor("DR-1003", "Dr. Emma Wilson", "Pediatrics", "Children's Health", "(555) 345-9012", "emma.wilson@hospital.com", "On Leave", 21),
    Doctor("DR-1004", "Dr. Robert Brown", "Orthopedics", "Orthopedic Surgery", "(555) 456-0123", "robert.brown@hospital.com", "Active", 19),
    Doctor("DR-1005", "Dr. Jennifer Garcia", "Oncology", "Cancer Care", "(555) 567-1234", "jennifer.garcia@hospital.com", "Active", 31),
    Doctor("DR-1006", "Dr. James Martinez", "General Surgery", "Surgery", "(555) 678-2345", "james.martinez@hospital.com", "On Call", 15)
  ]

  function Ids(ds: seq<Doctor>): seq<string>
  {
    seq(|ds|, i requires 0 <= i < |ds| => ds[i].id)
  }

  function Statuses(ds: seq<Doctor>): seq<string>
  {
    seq(|ds|, i requires 0 <= i < |ds| => ds[i].status)
  }

  // ---------------------------------------------------------------------
  // Statistics

  /** `doctors.filter(d => d.status === status).length` */
  function Count(ds: seq<Doctor>, status: string): nat
  {
    if ds == [] then 0 else (if ds[0].status == status then 1 else 0) + Count(ds[1..], status)
  }

  /** The figures of the four cards: Total Doctors, Active Doctors, On Leave
      and On Call (the page prints each with `toString`). */
  datatype DoctorStats = DoctorStats(total: nat, active: nat, onLeave: nat, onCall: nat)

  function Stats(ds: seq<Doctor>): DoctorStats
  {
    DoctorStats(|ds|, Count(ds, "Active"), Count(ds, "On Leave"), Count(ds, "On Call"))
  }

  /** A status count is the number of times that status occurs in the list. */
  lemma {:induction false} CountIsMultiplicity(ds: seq<Doctor>, status: string)
    ensures Count(ds, status) == multiset(Statuses(ds))[status]
    decreases |ds|
  {
    if ds != [] {
      CountIsMultiplicity(ds[1..], status);
      assert Statuses(ds) == [ds[0].status] + Statuses(ds[1..]);
    }
  }

  /** Counting adds over concatenation. */
  lemma {:induction false} CountAppend(a: seq<Doctor>, b: seq<Doctor>, status: string)
    ensures Count(a + b, status) == Count(a, status) + Count(b, status)
    decreases |a|
  {
    if a == [] {
      assert a + b == b;
    } else {
      assert (a + b)[1..] == a[1..] + b;
      CountAppend(a[1..], b, status);
    }
  }

  predicate Tallied(status: string)
  {
    status == "Active" || status == "On Leave" || status == "On Call"
  }

  /** The three status cards never add up to more than the total, and they
      add up to the total exactly when every doctor has one of the three
      statuses. */
  lemma {:induction false} StatusCountsBound(ds: seq<Doctor>)
    ensures Stats(ds).active + Stats(ds).onLeave + Stats(ds).onCall <= Stats(ds).total
    ensures (Stats(ds).active + Stats(ds).onLeave + Stats(ds).onCall == Stats(ds).total) <==>
              (forall i :: 0 <= i < |ds| ==> Tallied(ds[i].status))
    decreases |ds|
  {
    if ds != [] {
      StatusCountsBound(ds[1..]);
      assert forall i :: 0 < i < |ds| ==> ds[i] == ds[1..][i - 1];
      if forall i :: 0 <= i < |ds[1..]| ==> Tallied(ds[1..][i].status) {
        assert forall i :: 0 < i < |ds| ==> Tallied(ds[i].status);
      }
    }
  }

  /** The cards for the seed list: six doctors, four active, one on leave and
      one on call. */
  lemma InitialStats()
    ensures Stats(InitialDoctors) == DoctorStats(6, 4, 1, 1)
  {
    var ds := InitialDoctors;
    assert ds[1..][1..][1..][1..][1..][1..] == [];
  }

  /** Adding a doctor raises the total and its own status's card by one and
      leaves the other cards unchanged. */
  lemma AddDoctorStats(ds: seq<Doctor>, d: Doctor, status: string)
    ensures Stats(ds + [d]).total == Stats(ds).total + 1
    ensures Count(ds + [d], status) == Count(ds, status) + (if d.status == status then 1 else 0)
  {
    CountAppend(ds, [d], status);
    assert [d][1..] == [];
  }

  function StatusBadge(status: string): BadgeVariant
  {
    if status == "Active" then Default else if status == "On Leave" then Secondary else Outline
  }

  lemma StatusBadgeFacts(status: string)
    ensures StatusBadge(status) == Default <==> status == "Active"
    ensures StatusBadge(status) == Secondary <==> status == "On Leave"
    ensures StatusBadge(status) != Destructive
  {
  }

  // ---------------------------------------------------------------------
  // Adding a doctor

  /** The record `handleAddDoctor` builds when the list holds `count` doctors:
      a fresh id and no patients yet; the portrait URL is random and not kept. */
  function NewDoctor(input: DoctorInput, count: nat): Doctor
  {
    Doctor(SerialId(Prefix, count + 1), input.name, input.specialty, input.department,
           input.phone, input.email, input.status, 0)
  }

  /** The new record's id is DR- followed by 1000 + count + 1, it has no
      patients, and its other fields come from the dialog. */
  lemma NewDoctorRecord(input: DoctorInput, count: nat)
    ensures NewDoctor(input, count).id == "DR-" + NatToString(1001 + count)
    ensures ParseDecimal(NewDoctor(input, count).id[3..]) == 1001 + count
    ensures NewDoctor(input, count).patients == 0
    ensures NewDoctor(input, count).name == input.name && NewDoctor(input, count).specialty == input.specialty
    ensures NewDoctor(input, count).department == input.department && NewDoctor(input, count).phone == input.phone
    ensures NewDoctor(input, count).email == input.email && NewDoctor(input, count).status == input.status
  {
    ParseNatToString(1001 + count);
    assert NewDoctor(input, count).id[3..] == NatToString(1001 + count);
  }

  lemma IdsAppend(ds: seq<Doctor>, d: Doctor)
    ensures Ids(ds + [d]) == Ids(ds) + [d.id]
  {
  }

  /** The seed ids, read in order, are the serials 1..6. */
  lemma SeedIdsAscending(ids: seq<string>)
    requires ids == ["DR-1001", "DR-1002", "DR-1003", "DR-1004", "DR-1005", "DR-1006"]
    ensures ids == SerialRange(Prefix, 6)
  {
    var prefix := "DR-";
    SeedId(prefix, 1);
    SeedId(prefix, 2);
    SeedId(prefix, 3);
    SeedId(prefix, 4);
    SeedId(prefix, 5);
    SeedId(prefix, 6);
    AscendingIsRange(prefix, ids);
    assert prefix == Prefix;
  }

  /** The seed list carries DR-1001 .. DR-1006 in order. */
  lemma InitialDoctorsAscending()
    ensures Ids(InitialDoctors) == SerialRange(Prefix, 6)
  {
    assert Ids(InitialDoctors) == ["DR-1001", "DR-1002", "DR-1003", "DR-1004", "DR-1005", "DR-1006"];
    SeedIdsAscending(Ids(InitialDoctors));
  }

  /** The seed list is numbered, so its ids are distinct. */
  lemma InitialDoctorsNumbered()
    ensures Numbered(Prefix, Ids(InitialDoctors))
  {
    InitialDoctorsAscending();
    RangeIsNumbered(Prefix, 6);
  }

  /** The page's doctor list. */
  class DoctorDirectory {
    var doctors: seq<Doctor>

    constructor ()
      ensures doctors == InitialDoctors
      ensures Numbered(Prefix, Ids(doctors))
    {
      doctors := InitialDoctors;
      InitialDoctorsNumbered();
    }

    /** `handleAddDoctor`: the new record goes after the old list, and a list
        numbered DR-1001 .. DR-(1000 + n) stays numbered. */
    method AddDoctor(input: DoctorInput)
      modifies this
      ensures doctors == old(doctors) + [NewDoctor(input, |old(doctors)|)]
      ensures |doctors| == |old(doctors)| + 1 && doctors[..|old(doctors)|] == old(doctors)
      ensures Numbered(Prefix, Ids(old(doctors))) ==> Numbered(Prefix, Ids(doctors))
      ensures Stats(doctors).total == Stats(old(doctors)).total + 1
      ensures forall status :: Count(doctors, status) == Count(old(doctors), status) + (if input.status == status then 1 else 0)
    {
      var d := NewDoctor(input, |doctors|);
      IdsAppend(doctors, d);
      if Numbered(Prefix, Ids(doctors)) {
        NumberedAppend(Prefix, Ids(doctors));
      }
      forall status
        ensures Count(doctors + [d], status) == Count(doctors, status) + (if input.status == status then 1 else 0)
      {
        AddDoctorStats(doctors, d, status);
      }
      doctors := doctors + [d];
    }
  }
}
