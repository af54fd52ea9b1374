/** The batches page: the branch table and its seat total, the batch list,
    the Enroll button's enablement, and what `handleEnrollNow` does before
    its payment request (the login guard, the price parse, the payload). */
module Batches {
  import opened Lists
  import opened Text

  /** The rupee sign U+20B9. */
  const Rupee: char := '\U{20B9}'

  /** The one status under which the Enroll button is enabled. */
  const EnrollmentOpen: string := "Enrollment Open"

  datatype Branch = Branch(code: string, name: string, seats: nat)

  const Branches: seq<Branch> := [
    Branch("CE", "Civil Engineering", 60),
    Branch("ME", "Mechanical Engineering", 60),
    Branch("EE", "Electrical Engineering", 60),
    Branch("ECE", "Electronics & Communication Engineering", 60),
    Branch("CSE", "Computer Science & Engineering", 120),
    Branch("IT", "Information Technology", 60),
    Branch("CHE", "Chemical Engineering", 30),
    Branch("BT", "Biotechnology", 30),
    Branch("AE", "Aeronautical Engineering", 30),
    Branch("EN", "Environmental Engineering", 30),
    Branch("PE", "Production Engineering", 30),
    Branch("IE", "Industrial Engineering", 30)
  ]

  /** `branches.reduce((total, branch) => total + branch.seats, 0)`. */
  function SeatTotal(bs: seq<Branch>): nat {
    if bs == [] then 0 else bs[0].seats + SeatTotal(bs[1..])
  }

  /** The seat total adds up over the parts of a list, so it is the sum of
      the seats whatever the grouping. */
  lemma {:induction false} SeatTotalConcat(xs: seq<Branch>, ys: seq<Branch>)
    ensures SeatTotal(xs + ys) == SeatTotal(xs) + SeatTotal(ys)
  {
    if xs == [] {
      assert xs + ys == ys;
    } else {
      assert (xs + ys)[1..] == xs[1..] + ys;
      SeatTotalConcat(xs[1..], ys);
    }
  }

  /** One step of the sum: the seats of a suffix are those of its first branch plus the rest. */
  lemma SeatTotalStep(bs: seq<Branch>, k: nat)
    requires k < |bs|
    ensures SeatTotal(bs[k..]) == bs[k].seats + SeatTotal(bs[k + 1..])
  {
    assert bs[k..][1..] == bs[k + 1..];
  }

  /** The seats of six branches, written out. */
  lemma SeatTotalOfSix(bs: seq<Branch>)
    requires |bs| == 6
    ensures SeatTotal(bs) == bs[0].seats + bs[1].seats + bs[2].seats + bs[3].seats + bs[4].seats + bs[5].seats
  {
    assert SeatTotal(bs[6..]) == 0 by { assert bs[6..] == []; }
    SeatTotalStep(bs, 5);
    SeatTotalStep(bs, 4);
    SeatTotalStep(bs, 3);
    SeatTotalStep(bs, 2);
    SeatTotalStep(bs, 1);
    SeatTotalStep(bs, 0);
    assert bs[0..] == bs;
  }

  /** Twelve branches with the listed seat counts, in the listed order, add up to 600. */
  lemma SeatTotalOfCounts(bs: seq<Branch>)
    requires |bs| == 12
    requires bs[0].seats == bs[1].seats == bs[2].seats == bs[3].seats == 60
    requires bs[4].seats == 120 && bs[5].seats == 60
    requires bs[6].seats == bs[7].seats == bs[8].seats == bs[9].seats == bs[10].seats == bs[11].seats == 30
    ensures SeatTotal(bs) == 600
  {
    var front, back := bs[..6], bs[6..];
    assert bs == front + back;
    SeatTotalConcat(front, back);
    SeatTotalOfSix(front);
    SeatTotalOfSix(back);
  }

  /** The listed branches offer 600 seats a year: 60 in each of five branches,
      120 in CSE and 30 in each of the six others. */
  lemma SeatTotalOfBranches(bs: seq<Branch>)
    // the parameter stands for the constant, keeping the literal list out of the solver's way
    requires bs == Branches
    ensures SeatTotal(bs) == 600
  {
    SeatTotalOfCounts(bs);
  }

  datatype Batch = Batch(id: nat, title: string, price: string, status: string)

  /** The batch list (descriptions, features and the other display fields left out). */
  const BatchList: seq<Batch> := [
    Batch(1, "1st Semester - Foundation Engineering (All Branches)", [Rupee] + "1,499", EnrollmentOpen),
    Batch(2, "2nd Semester - Chemistry & Programming (All Branches)", [Rupee] + "1,499", EnrollmentOpen),
    Batch(3, "3rd Semester - Branch Specialization Begins", [Rupee] + "1,699", EnrollmentOpen),
    Batch(4, "4th Semester - Core Branch Subjects", [Rupee] + "1,699", EnrollmentOpen),
    Batch(5, "5th Semester - Advanced Engineering Concepts", [Rupee] + "1,899", EnrollmentOpen),
    Batch(6, "6th Semester - Industry Applications", [Rupee] + "1,899", EnrollmentOpen),
    Batch(7, "7th Semester - Electives & Specialization", [Rupee] + "2,099", EnrollmentOpen),
    Batch(8, "8th Semester - Final Year Project & Placement", [Rupee] + "2,099", EnrollmentOpen)
  ]

  /** `disabled={batch.status !== "Enrollment Open"}`. */
  predicate EnrollEnabled(b: Batch) {
    b.status == EnrollmentOpen
  }

  /** Every listed batch can be enrolled in. */
  lemma ListedBatchesOpen()
    ensures forall b :: b in BatchList ==> EnrollEnabled(b)
  {
  }

  predicate KeptInPrice(c: char) {
    c != Rupee && c != ','
  }

  /** `price.replace(/[₹,]/g, '')`. */
  function StripPrice(price: string): (r: string)
    ensures forall k :: 0 <= k < |r| ==> KeptInPrice(r[k])
    ensures |r| <= |price|
  {
    Filter(price, KeptInPrice)
  }

  /** Exactly the characters other than the rupee sign and the comma are kept,
      in their order: the strip works on each part of a price separately. */
  lemma StripPriceExactly(price: string, c: char)
    ensures c in StripPrice(price) <==> c in price && KeptInPrice(c)
    ensures forall xs, ys :: price == xs + ys ==> StripPrice(price) == StripPrice(xs) + StripPrice(ys)
  {
    FilterMembership(price, KeptInPrice, c);
    forall xs, ys | price == xs + ys
      ensures StripPrice(price) == StripPrice(xs) + StripPrice(ys)
    {
      FilterConcat(xs, ys, KeptInPrice);
    }
  }

  /** `parseInt(price.replace(/[₹,]/g, ''))`; `None` is NaN. */
  function ParsePrice(price: string): Option<int> {
    ParseInt(StripPrice(price))
  }

  /** Removing the rupee sign and commas leaves a digit string as it is. */
  lemma StripDigits(ds: string)
    requires AllDigits(ds)
    ensures StripPrice(ds) == ds
  {
    FilterAll(ds, KeptInPrice);
  }

  /** A price written as the rupee sign, the thousands, a comma and the rest
      of the digits parses to the number the digits denote. */
  lemma ParseFormattedPrice(thousands: string, rest: string)
    requires thousands != [] && AllDigits(thousands) && AllDigits(rest)
    ensures AllDigits(thousands + rest)
    ensures ParsePrice([Rupee] + thousands + [','] + rest) == Some(DigitsValue(thousands + rest))
  {
    var signed := [Rupee] + thousands;
    var grouped := signed + [','];
    assert StripPrice(signed) == thousands by {
      FilterConcat([Rupee], thousands, KeptInPrice);
      StripDigits(thousands);
    }
    assert StripPrice(grouped) == thousands by {
      FilterConcat(signed, [','], KeptInPrice);
    }
    assert StripPrice(grouped + rest) == thousands + rest by {
      FilterConcat(grouped, rest, KeptInPrice);
      StripDigits(rest);
    }
    ParseIntOfDigits(thousands + rest);
  }

  /** The digits "1499" denote 1499. */
  lemma DigitsOf1499(ds: string)
    // the parameter stands for the literal, keeping it out of the solver's way
    requires ds == "1499"
    ensures AllDigits(ds) && DigitsValue(ds) == 1499
  {
    DecimalStringValue(1499);
    assert DecimalString(1499) == "1499";
  }

  /** "₹1,499", the price of the first two batches, is charged as 1499. */
  lemma PriceOfFirstBatch(price: string)
    // the parameter stands for the literal, keeping it out of the solver's way
    requires price == [Rupee] + "1,499"
    ensures ParsePrice(price) == Some(1499)
  {
    var thousands, rest := "1", "499";
    assert price == [Rupee] + thousands + [','] + rest;
    assert DigitsValue(thousands + rest) == 1499 by {
      DigitsOf1499(thousands + rest);
    }
    assert AllDigits(thousands) && AllDigits(rest);
    ParseFormattedPrice(thousands, rest);
  }

  /** The user object of the auth context. After a sign-up or sign-in in the
      same session it holds only the email and the name, so its `id` may be
      absent; `None` is then JavaScript's `undefined`. */
  datatype UserRef = UserRef(id: Option<string>)

  /** What pressing Enroll leads to: the login page, or the payment request. */
  datatype EnrollAction = NavigateToLogin | Pay(amount: Option<int>, courseName: string, userId: Option<string>)

  /** `handleEnrollNow` up to the request: the guard tests the user object,
      and the payload reads its `id`, which may be `undefined`. */
  function EnrollNow(user: Option<UserRef>, batch: Batch): (a: EnrollAction)
    ensures a.NavigateToLogin? <==> user.None?
    ensures a.Pay? ==> a.amount == ParsePrice(batch.price) && a.courseName == batch.title && a.userId == user.value.id
  {
    match user
    case None => NavigateToLogin
    case Some(u) => Pay(ParsePrice(batch.price), batch.title, u.id)
  }

  /** A user object without an id still passes the login guard and sends the
      payment request with no user id. */
  lemma EnrollWithoutId(batch: Batch)
    ensures EnrollNow(Some(UserRef(None)), batch) == Pay(ParsePrice(batch.price), batch.title, None)
  {
  }
}
