/**
 Dates between the Python client and the Rust codec. Both put a day number, the month
 and the day on the wire, and both check the month and the day when they read. The
 numbers differ by one, so neither side reads a date of the other.
 */
module PythonDates {
  import opened Types
  import opened Calendar
  import opened Wire
  import opened WireLaws

  /** The three numbers of a date behind its tag, for a given day number. */
  function DateBytes(days: int, d: Civil): seq<byte> {
    SignedLE(days, 4) + SignedLE(d.m, 4) + SignedLE(d.d, 4)
  }

  /** The Python writer. */
  function PyDate(d: Civil): seq<byte> { DateBytes(DaysFromCivil(d), d) }

  /** The Python reader. */
  function PyReadDate(s: seq<byte>): Parsed<Civil> {
    match DecInt(4, s)
    case Bad => Bad
    case Got(days, s1) =>
      match DecUint(4, s1)
      case Bad => Bad
      case Got(month, s2) =>
        match DecUint(4, s2)
        case Bad => Bad
        case Got(day, s3) =>
          var c := CivilFromDays(days);
          if c.m == month && c.d == day then Got(c, s3) else Bad
  }

  /** The three numbers read back one after another. */
  lemma NumbersReadBack(days: int, d: Civil, rest: seq<byte>)
    requires ValidDate(d) && FitsI32(days)
    ensures DateBytes(days, d) + rest == SignedLE(days, 4) + (SignedLE(d.m, 4) + (SignedLE(d.d, 4) + rest))
    ensures DecInt(4, DateBytes(days, d) + rest) == Got(days, SignedLE(d.m, 4) + (SignedLE(d.d, 4) + rest))
    ensures DecUint(4, SignedLE(d.m, 4) + (SignedLE(d.d, 4) + rest)) == Got(d.m, SignedLE(d.d, 4) + rest)
    ensures DecUint(4, SignedLE(d.d, 4) + rest) == Got(d.d, rest)
  {
    hide DecUint, DecInt, LE, Bound;
    Assoc4(SignedLE(days, 4), SignedLE(d.m, 4), SignedLE(d.d, 4), rest);
    IntReadsBack(days, 4, SignedLE(d.m, 4) + (SignedLE(d.d, 4) + rest));
    TwosComplement(d.m, 4);
    TwosComplement(d.d, 4);
    UintReadsBack(d.m, 4, SignedLE(d.d, 4) + rest);
    UintReadsBack(d.d, 4, rest);
  }

  /** Neighbouring days never have the same day of the month. */
  lemma NeighboursDiffer(z: int)
    ensures CivilFromDays(z).d != CivilFromDays(z + 1).d
  {
    hide DaysFromCivil, CivilFromDays;
    DaysRoundTrip(z);
    DaysRoundTrip(z + 1);
    SuccessorIsNextNumber(CivilFromDays(z));
    EqualNumberEqualDate(NextDay(CivilFromDays(z)), CivilFromDays(z + 1));
  }

  /** The Rust reader rejects every date the Python client sends. */
  lemma RustRejectsPythonDates(d: Civil, rest: seq<byte>)
    requires ValidDate(d) && FitsI32(DaysFromCivil(d))
    ensures DecDate(PyDate(d) + rest) == Bad
  {
    hide DecUint, DecInt, SignedLE, DaysFromCivil, CivilFromDays, ChronoDate;
    NumbersReadBack(DaysFromCivil(d), d, rest);
    CivilRoundTrip(d);
    NeighboursDiffer(DaysFromCivil(d) - 1);
  }

  /** The Python reader rejects every date the Rust codec sends. */
  lemma PythonRejectsRustDates(d: Civil, rest: seq<byte>)
    requires ScalarFits(Date(d))
    ensures PyReadDate(ScalarBody(Date(d)) + rest) == Bad
  {
    hide DecUint, DecInt, SignedLE, DaysFromCivil, CivilFromDays, NumDaysFromCe;
    assert ScalarBody(Date(d)) == DateBytes(NumDaysFromCe(d), d);
    NumbersReadBack(NumDaysFromCe(d), d, rest);
    CivilRoundTrip(d);
    OneBelowCommonEra(d);
    NeighboursDiffer(DaysFromCivil(d));
  }

  /** The Python client reads its own dates back. */
  lemma PythonReadsPythonDates(d: Civil, rest: seq<byte>)
    requires ValidDate(d) && FitsI32(DaysFromCivil(d))
    ensures PyReadDate(PyDate(d) + rest) == Got(d, rest)
  {
    hide DecUint, DecInt, SignedLE, DaysFromCivil, CivilFromDays;
    NumbersReadBack(DaysFromCivil(d), d, rest);
    CivilRoundTrip(d);
  }
}
