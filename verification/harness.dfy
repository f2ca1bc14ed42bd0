/** The parser test's comparison of a parsed schedule against the classes
    expected for class 00002 in the week the test fetches (week 41, the week
    of 6 October 2025). */
module Harness {

  import opened Wrappers
  import opened Markup
  import opened Extract
  import opened Scan
  import opened Timetable

  /** One class of the flattened schedule, with the day it is filed under. The
      expected classes have the same shape; `None` is a `null` group. */
  datatype FlatEntry = FlatEntry(
    day: string, slot: nat, subject: string, teacher: string, room: string, skupina: Option<nat>)

  function FlatOf(day: string, c: ClassInfo): FlatEntry {
    FlatEntry(day, c.slot, c.subject, c.teacher, c.room, c.skupina)
  }

  /** The entries of one day's classes, in class order. */
  function FlattenClasses(day: string, classes: seq<ClassInfo>): (r: seq<FlatEntry>)
    ensures |r| == |classes|
    ensures forall i :: 0 <= i < |classes| ==> r[i] == FlatOf(day, classes[i])
  {
    if classes == [] then [] else [FlatOf(day, classes[0])] + FlattenClasses(day, classes[1..])
  }

  /** The flattened schedule: every day's classes, in day order, then class order. */
  function Flatten(days: seq<DayInfo>): seq<FlatEntry>
  {
    if days == [] then [] else FlattenClasses(days[0].day, days[0].classes) + Flatten(days[1..])
  }

  /** Flattening follows day order: the entries of earlier days come first. */
  lemma {:induction false} FlattenAppend(a: seq<DayInfo>, b: seq<DayInfo>)
    ensures Flatten(a + b) == Flatten(a) + Flatten(b)
  {
    if a != [] {
      assert (a + b)[0] == a[0] && (a + b)[1..] == a[1..] + b;
      FlattenAppend(a[1..], b);
      var head := FlattenClasses(a[0].day, a[0].classes);
      assert Flatten(a + b) == head + (Flatten(a[1..]) + Flatten(b));
      assert Flatten(a) == head + Flatten(a[1..]);
    } else {
      assert a + b == b;
    }
  }

  /** An entry is in the flattened schedule exactly when it is the entry of
      some class of some day. */
  lemma {:induction false} FlattenMembers(days: seq<DayInfo>)
    ensures forall e :: e in Flatten(days) <==>
              exists k, i :: 0 <= k < |days| && 0 <= i < |days[k].classes| && e == FlatOf(days[k].day, days[k].classes[i])
  {
    if days != [] {
      FlattenMembers(days[1..]);
      var head := FlattenClasses(days[0].day, days[0].classes);
      forall e ensures e in Flatten(days) <==>
                exists k, i :: 0 <= k < |days| && 0 <= i < |days[k].classes| && e == FlatOf(days[k].day, days[k].classes[i])
      {
        if e in head {
          var i :| 0 <= i < |head| && head[i] == e;
          assert e == FlatOf(days[0].day, days[0].classes[i]);
        } else if e in Flatten(days[1..]) {
          var k, i :| 0 <= k < |days[1..]| && 0 <= i < |days[1..][k].classes| && e == FlatOf(days[1..][k].day, days[1..][k].classes[i]);
          assert days[1..][k] == days[k + 1];
        }
        if exists k, i :: 0 <= k < |days| && 0 <= i < |days[k].classes| && e == FlatOf(days[k].day, days[k].classes[i]) {
          var k, i :| 0 <= k < |days| && 0 <= i < |days[k].classes| && e == FlatOf(days[k].day, days[k].classes[i]);
          if k == 0 {
            assert head[i] == e;
          } else {
            assert days[1..][k - 1] == days[k];
          }
        }
      }
    }
  }

  /** The test's notion of a parsed entry `p` satisfying an expected entry
      `e`: same day, period and subject, and the same group unless `e`
      expects none. */
  predicate Matches(p: FlatEntry, e: FlatEntry) {
    p.day == e.day && p.slot == e.slot && p.subject == e.subject && (e.skupina.None? || p.skupina == e.skupina)
  }

  /** `parsedFlat.find(p => matches(p, exp))`, as the index found. */
  function FindMatch(flat: seq<FlatEntry>, e: FlatEntry): (r: Option<nat>)
    ensures r.Some? ==> r.value < |flat| && Matches(flat[r.value], e)
    ensures r.Some? ==> forall j :: 0 <= j < r.value ==> !Matches(flat[j], e)
    ensures r.None? <==> forall j :: 0 <= j < |flat| ==> !Matches(flat[j], e)
  {
    if flat == [] then None
    else if Matches(flat[0], e) then Some(0)
    else
      var r := FindMatch(flat[1..], e);
      assert forall j :: 1 <= j < |flat| ==> flat[1..][j - 1] == flat[j];
      match r
      case Some(j) => Some(j + 1)
      case None => None
  }

  /** `expectedClasses.find(e => matches(p, e))`, as the index found. */
  function FindExpected(expected: seq<FlatEntry>, p: FlatEntry): (r: Option<nat>)
    ensures r.Some? ==> r.value < |expected| && Matches(p, expected[r.value])
    ensures r.None? <==> forall j :: 0 <= j < |expected| ==> !Matches(p, expected[j])
  {
    if expected == [] then None
    else if Matches(p, expected[0]) then Some(0)
    else
      var r := FindExpected(expected[1..], p);
      assert forall j :: 1 <= j < |expected| ==> expected[1..][j - 1] == expected[j];
      match r
      case Some(j) => Some(j + 1)
      case None => None
  }

  /** The classes expected for class 00002 in the fetched week, by day. */
  const ExpectedClasses: seq<FlatEntry> := [
    FlatEntry("Ponedeljek 6.10.", 8, "EPP sv", "Balanti\U{010D}", "504", None),
    FlatEntry("Ponedeljek 6.10.", 12, "NRP", "De\U{010D}man", "352", None),
    FlatEntry("Torek 7.10.", 2, "RSR lv", "Uhan", "253", Some(2)),
    FlatEntry("Torek 7.10.", 2, "NRP lv", "De\U{010D}man", "500", Some(1)),
    FlatEntry("Torek 7.10.", 6, "EPP", "Balanti\U{010D}", "504", None),
    FlatEntry("Sreda 8.10.", 2, "ZBP2 lv", "Kralj B.", "274", Some(1)),
    FlatEntry("Sreda 8.10.", 7, "ZBP2", "Kralj B.", "504", None),
    FlatEntry("Sreda 8.10.", 12, "NRO", "Vehovec B.", "504", None),
    FlatEntry("\U{010C}etrtek 9.10.", 7, "ZBP2 lv", "Kralj B.", "274", Some(2)),
    FlatEntry("\U{010C}etrtek 9.10.", 7, "RSR lv", "Uhan", "253", Some(3)),
    FlatEntry("\U{010C}etrtek 9.10.", 12, "NRO lv", "Vehovec B.", "504", None),
    FlatEntry("Petek 10.10.", 2, "RSR lv", "Uhan", "253", Some(1)),
    FlatEntry("Petek 10.10.", 2, "NRP lv", "De\U{010D}man", "503", Some(2))
  ]

  /** The expected entries some parsed entry satisfies, in order. */
  function Correct(flat: seq<FlatEntry>, expected: seq<FlatEntry>): seq<FlatEntry>
  {
    if expected == [] then []
    else (if FindMatch(flat, expected[0]).Some? then [expected[0]] else []) + Correct(flat, expected[1..])
  }

  /** The expected entries no parsed entry satisfies, in order. */
  function Missing(flat: seq<FlatEntry>, expected: seq<FlatEntry>): seq<FlatEntry>
  {
    if expected == [] then []
    else (if FindMatch(flat, expected[0]).None? then [expected[0]] else []) + Missing(flat, expected[1..])
  }

  /** The parsed entries that satisfy none of the module's expected classes,
      in order. The list searched is always `ExpectedClasses`, whatever list
      the comparison was given. */
  function Extra(flat: seq<FlatEntry>): seq<FlatEntry>
  {
    if flat == [] then []
    else (if FindExpected(ExpectedClasses, flat[0]).None? then [flat[0]] else []) + Extra(flat[1..])
  }

  datatype Results = Results(correct: seq<FlatEntry>, missing: seq<FlatEntry>, extra: seq<FlatEntry>)

  /** `compareSchedules(parsed, expected)` on the parsed days. */
  function CompareSchedules(parsed: seq<DayInfo>, expected: seq<FlatEntry>): (r: Results)
    ensures |r.correct| + |r.missing| == |expected|
    ensures |r.extra| <= |Flatten(parsed)|
  {
    var flat := Flatten(parsed);
    ExpectedIsPartitioned(flat, expected);
    ExtraMeaning(flat);
    assert |multiset(Correct(flat, expected))| + |multiset(Missing(flat, expected))| == |multiset(expected)|;
    Results(Correct(flat, expected), Missing(flat, expected), Extra(flat))
  }

  /** Which entries are extra does not depend on the expected list passed in. */
  lemma ExtraIgnoresExpected(parsed: seq<DayInfo>, a: seq<FlatEntry>, b: seq<FlatEntry>)
    ensures CompareSchedules(parsed, a).extra == CompareSchedules(parsed, b).extra
  {
  }

  /** Some parsed entry satisfies `e`. */
  ghost predicate Found(flat: seq<FlatEntry>, e: FlatEntry) {
    exists j :: 0 <= j < |flat| && Matches(flat[j], e)
  }

  /** Some entry of the module's expected classes is satisfied by `p`. */
  ghost predicate Expected(p: FlatEntry) {
    exists j :: 0 <= j < |ExpectedClasses| && Matches(p, ExpectedClasses[j])
  }

  /** Every expected entry lands in exactly one of `correct` and `missing`:
      together they are the expected entries, `correct` holds those some
      parsed entry satisfies and `missing` those none does. */
  lemma {:induction false} ExpectedIsPartitioned(flat: seq<FlatEntry>, expected: seq<FlatEntry>)
    ensures multiset(Correct(flat, expected)) + multiset(Missing(flat, expected)) == multiset(expected)
    ensures forall e :: e in Correct(flat, expected) <==> e in expected && Found(flat, e)
    ensures forall e :: e in Missing(flat, expected) <==> e in expected && !Found(flat, e)
  {
    if expected != [] {
      var e := expected[0];
      ExpectedIsPartitioned(flat, expected[1..]);
      assert expected == [e] + expected[1..];
      assert forall x :: x in expected <==> x == e || x in expected[1..];
      assert FindMatch(flat, e).Some? <==> Found(flat, e);
    }
  }

  /** `extra` holds exactly the parsed entries that no class of the module's
      expected list satisfies, in the order parsed. */
  lemma {:induction false} ExtraMeaning(flat: seq<FlatEntry>)
    ensures |Extra(flat)| <= |flat|
    ensures forall p :: p in Extra(flat) <==> p in flat && !Expected(p)
  {
    if flat != [] {
      ExtraMeaning(flat[1..]);
      assert forall x :: x in flat <==> x == flat[0] || x in flat[1..] by {
        assert flat == [flat[0]] + flat[1..];
      }
      assert FindExpected(ExpectedClasses, flat[0]).None? <==> !Expected(flat[0]);
    }
  }

  /** The suite passes when nothing is missing and nothing is extra. */
  predicate SuitePasses(r: Results) {
    |r.missing| == 0 && |r.extra| == 0
  }

  /** The suite passes exactly when every expected entry is satisfied by some
      parsed entry and every parsed entry satisfies some class of the module's
      expected list. */
  lemma SuiteVerdict(parsed: seq<DayInfo>, expected: seq<FlatEntry>)
    ensures var flat := Flatten(parsed);
      SuitePasses(CompareSchedules(parsed, expected)) <==>
        (forall e :: e in expected ==> Found(flat, e)) && (forall p :: p in flat ==> Expected(p))
  {
    var flat := Flatten(parsed);
    ExpectedIsPartitioned(flat, expected);
    ExtraMeaning(flat);
    var r := CompareSchedules(parsed, expected);
    if |r.missing| != 0 {
      assert r.missing[0] in r.missing;
    }
    if |r.extra| != 0 {
      assert r.extra[0] in r.extra;
    }
  }

  /** A parsed schedule whose entries are exactly the module's expected
      classes passes: each entry satisfies itself. */
  lemma ExactSchedulePasses(parsed: seq<DayInfo>)
    requires forall e :: e in ExpectedClasses ==> e in Flatten(parsed)
    requires forall p :: p in Flatten(parsed) ==> p in ExpectedClasses
    ensures SuitePasses(CompareSchedules(parsed, ExpectedClasses))
  {
    var flat := Flatten(parsed);
    SuiteVerdict(parsed, ExpectedClasses);
    forall e | e in ExpectedClasses ensures Found(flat, e) {
      var j :| 0 <= j < |flat| && flat[j] == e;
      assert Matches(flat[j], e);
    }
    forall p | p in flat ensures Expected(p) {
      var j :| 0 <= j < |ExpectedClasses| && ExpectedClasses[j] == p;
      assert Matches(p, ExpectedClasses[j]);
    }
  }

  /** The test's verdict on a fetched page: the test copy of the parser's days
      compared with the module's expected classes. */
  predicate TestPasses(doc: Document) {
    SuitePasses(CompareSchedules(ParseTimetableTestCopy(doc).days, ExpectedClasses))
  }
}
