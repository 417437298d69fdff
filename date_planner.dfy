/** The plan list of `src/components/DatePlanner.jsx`: the 12-hour time
    display, the order in which plans are shown, and the component state
    that submitting, deleting and loading change. `localeCompare` on the
    ISO dates and `HH:MM` times the form produces is lexicographic order on
    characters. */
module DatePlanner {

  import opened Wrappers
  import opened Text

  /** A saved plan: the form fields spread into a record, plus the id. */
  datatype Plan = Plan(id: int, title: string, date: string, time: string, location: string, notes: string)

  /** The fields of the new-plan form. */
  datatype PlanForm = PlanForm(title: string, date: string, time: string, location: string, notes: string)

  const EmptyForm := PlanForm([], [], [], [], [])

  /** `{ ...formData, id }`. */
  function PlanOf(form: PlanForm, id: int): (p: Plan)
    ensures p.id == id && p.title == form.title && p.date == form.date
    ensures p.time == form.time && p.location == form.location && p.notes == form.notes
  {
    Plan(id, form.title, form.date, form.time, form.location, form.notes)
  }

  // =====================================================================
  // formatTime12Hour

  /** The quotient of JavaScript's `%`: the integer part of `a / b`,
      rounded toward zero. */
  function JsQuot(a: int, b: int): (q: int)
    requires b > 0
    ensures a >= 0 ==> q >= 0
    ensures a < 0 ==> q <= 0
  {
    if a >= 0 then a / b else -((-a) / b)
  }

  /** JavaScript's `%` on integers: `a` minus `b` times the quotient
      rounded toward zero, so the remainder takes the sign of the dividend. */
  function JsRem(a: int, b: int): (r: int)
    requires b > 0
    ensures a == JsQuot(a, b) * b + r
    ensures a >= 0 ==> 0 <= r < b
    ensures a < 0 ==> -b < r <= 0
  {
    if a >= 0 then
      assert a == (a / b) * b + a % b;
      a % b
    else
      var c := -a;
      assert c == (c / b) * b + c % b;
      assert (-(c / b)) * b == -((c / b) * b);
      -(c % b)
  }

  /** `hour % 12 || 12`, where `None` is `NaN`: a zero or `NaN` remainder is
      falsy and gives 12. */
  function Hour12(hour: Option<int>): int {
    match hour
    case None => 12
    case Some(h) => if JsRem(h, 12) == 0 then 12 else JsRem(h, 12)
  }

  /** `hour >= 12 ? 'PM' : 'AM'`; `NaN >= 12` is false. */
  function Meridiem(hour: Option<int>): string {
    if hour.Some? && hour.value >= 12 then "PM" else "AM"
  }

  /** `formatTime12Hour(time24)`: the part before the first colon is read
      with `parseInt`, the part after it is copied, and a missing part
      prints as `undefined`. */
  function FormatTime12Hour(time24: string): (r: string)
    ensures r == [] <==> time24 == []
  {
    if time24 == [] then []
    else
      var parts := Split(time24, ':');
      Display(ParseInt(parts[0]), if |parts| > 1 then parts[1] else "undefined")
  }

  /** `${hour12}:${minutes} ${ampm}` for the hour `parseInt` read. */
  function Display(hour: Option<int>, minutes: string): (r: string)
    ensures r != []
  {
    IntToString(Hour12(hour)) + ":" + minutes + " " + Meridiem(hour)
  }

  /** The hour shown for a non-negative hour is always 1 to 12: 0 becomes 12
      AM, 1 to 11 stay AM, 12 is 12 PM and 13 to 23 lose 12 and are PM. */
  lemma Hour12Table(h: int)
    requires 0 <= h
    ensures 1 <= Hour12(Some(h)) <= 12
    ensures h == 0 ==> Hour12(Some(h)) == 12 && Meridiem(Some(h)) == "AM"
    ensures 1 <= h <= 11 ==> Hour12(Some(h)) == h && Meridiem(Some(h)) == "AM"
    ensures h == 12 ==> Hour12(Some(h)) == 12 && Meridiem(Some(h)) == "PM"
    ensures 13 <= h <= 23 ==> Hour12(Some(h)) == h - 12 && Meridiem(Some(h)) == "PM"
  {
  }

  /** For `hh:mm` with decimal digits before the colon and no further colon,
      the display is the 12-hour form of the hour, the minutes as written
      and the half of the day. */
  lemma FormatHourMinute(hh: string, mm: string)
    requires hh != [] && forall k :: 0 <= k < |hh| ==> IsDigit(hh[k])
    requires ':' !in mm
    ensures FormatTime12Hour(hh + ":" + mm) == Display(Some(DigitsValue(hh)), mm)
  {
    SplitHourMinute(hh, mm);
    ParseIntOfDigitRun(hh);
    FormatOfSplit(hh + ":" + mm, hh, mm);
  }

  lemma FormatOfSplit(t: string, hh: string, mm: string)
    requires Split(t, ':') == [hh, mm]
    ensures FormatTime12Hour(t) == Display(ParseInt(hh), mm)
  {
    assert t != [];
  }

  lemma SplitHourMinute(hh: string, mm: string)
    requires forall k :: 0 <= k < |hh| ==> IsDigit(hh[k])
    requires ':' !in mm
    ensures Split(hh + ":" + mm, ':') == [hh, mm]
  {
    assert hh + ":" + mm == hh + [':'] + mm;
    assert ':' !in hh by {
      forall k | 0 <= k < |hh| ensures hh[k] != ':' {
        assert IsDigit(hh[k]);
      }
    }
    SplitHead(hh, ':', mm);
    SplitNoSeparator(mm, ':');
  }

  /** A time without a colon has no minutes part, which prints as
      `undefined`. */
  lemma FormatWithoutColon(t: string)
    requires t != [] && ':' !in t
    ensures FormatTime12Hour(t) == Display(ParseInt(t), "undefined")
  {
    SplitNoSeparator(t, ':');
    var parts := Split(t, ':');
    assert |parts| == 1 && parts[0] == t;
  }

  /** A displayed 24-hour time round-trips through its hour: the hour of
      `String(h) + ":" + mm` is the 12-hour form of `h`. */
  lemma FormatOfRenderedHour(h: nat, mm: string)
    requires ':' !in mm
    ensures FormatTime12Hour(NatToString(h) + ":" + mm) == Display(Some(h), mm)
  {
    FormatHourMinute(NatToString(h), mm);
    NatToStringRoundTrip(h);
  }

  // =====================================================================
  // The display order

  /** The sign of `x.localeCompare(y)` on ISO dates and times:
      lexicographic order on characters. */
  function StrCompare(x: string, y: string): (r: int)
    ensures -1 <= r <= 1
    ensures r == 0 <==> x == y
  {
    if x == [] then (if y == [] then 0 else -1)
    else if y == [] then 1
    else if x[0] < y[0] then -1
    else if x[0] > y[0] then 1
    else
      assert x == [x[0]] + x[1..] && y == [y[0]] + y[1..];
      StrCompare(x[1..], y[1..])
  }

  /** The direction of the order: at the first index where the strings
      differ, the smaller character comes first. */
  lemma {:induction false} StrCompareFirstDifference(x: string, y: string, k: nat)
    requires k < |x| && k < |y| && x[..k] == y[..k] && x[k] < y[k]
    ensures StrCompare(x, y) == -1
  {
    if k > 0 {
      assert x[0] == x[..k][0] == y[..k][0] == y[0];
      assert x[1..][..k - 1] == x[..k][1..] == y[..k][1..] == y[1..][..k - 1];
      StrCompareFirstDifference(x[1..], y[1..], k - 1);
    }
  }

  /** A proper prefix comes first. */
  lemma {:induction false} StrComparePrefix(x: string, y: string)
    requires |x| < |y| && x == y[..|x|]
    ensures StrCompare(x, y) == -1
  {
    if x != [] {
      assert x[0] == y[0];
      assert x[1..] == y[1..][..|x| - 1];
      StrComparePrefix(x[1..], y[1..]);
    }
  }

  lemma {:induction false} StrCompareAntisymmetric(x: string, y: string)
    ensures StrCompare(x, y) == -StrCompare(y, x)
  {
    if x != [] && y != [] && x[0] == y[0] {
      StrCompareAntisymmetric(x[1..], y[1..]);
    }
  }

  lemma {:induction false} StrCompareTransitive(x: string, y: string, z: string)
    requires StrCompare(x, y) <= 0 && StrCompare(y, z) <= 0
    ensures StrCompare(x, z) <= 0
  {
    if x != [] && y != [] && z != [] && x[0] == y[0] && y[0] == z[0] {
      StrCompareTransitive(x[1..], y[1..], z[1..]);
    }
  }

  /** The comparator of `sortedPlans`: later dates first; on the same date,
      later times first, and a plan with a time before one without. */
  function Compare(a: Plan, b: Plan): (r: int)
    ensures -1 <= r <= 1
  {
    if a.date != b.date then StrCompare(b.date, a.date)
    else if a.time != [] && b.time != [] then StrCompare(b.time, a.time)
    else if a.time != [] && b.time == [] then -1
    else if a.time == [] && b.time != [] then 1
    else 0
  }

  /** Two plans the comparator cannot tell apart: same date and same time. */
  predicate SameSlot(a: Plan, b: Plan) {
    a.date == b.date && a.time == b.time
  }

  /** The comparator is consistent: it ties exactly plans in the same slot,
      swapping its arguments negates it, and it is transitive, so it orders
      plans totally up to ties. */
  lemma CompareZeroIff(a: Plan, b: Plan)
    ensures Compare(a, b) == 0 <==> SameSlot(a, b)
  {
  }

  lemma CompareAntisymmetric(a: Plan, b: Plan)
    ensures Compare(a, b) == -Compare(b, a)
  {
    StrCompareAntisymmetric(a.date, b.date);
    StrCompareAntisymmetric(a.time, b.time);
  }

  lemma CompareTransitive(a: Plan, b: Plan, c: Plan)
    requires Compare(a, b) <= 0 && Compare(b, c) <= 0
    ensures Compare(a, c) <= 0
  {
    if a.date != b.date && b.date != c.date && a.date != c.date {
      StrCompareTransitive(c.date, b.date, a.date);
    } else if a.date == b.date && b.date == c.date {
      if a.time != [] && b.time != [] && c.time != [] {
        StrCompareTransitive(c.time, b.time, a.time);
      }
    } else if a.date != b.date && b.date != c.date {
      // a.date == c.date: the two steps cancel
      StrCompareAntisymmetric(b.date, a.date);
    }
  }

  /** A tie followed by a strict step is a strict step. */
  lemma CompareStrictAfterTie(a: Plan, b: Plan, c: Plan)
    requires Compare(a, b) < 0 && Compare(b, c) <= 0
    ensures Compare(a, c) < 0
  {
    CompareTransitive(a, b, c);
    CompareAntisymmetric(b, c);
  }

  predicate SortedByCompare(s: seq<Plan>) {
    forall i, j :: 0 <= i < j < |s| ==> Compare(s[i], s[j]) <= 0
  }

  /** Places `x` after every plan of the sorted `s` that does not come after
      it. */
  function Insert(x: Plan, s: seq<Plan>): (r: seq<Plan>)
    ensures multiset(r) == multiset(s) + multiset{x}
  {
    if s == [] then [x]
    else if Compare(s[0], x) > 0 then [x] + s
    else
      assert s == [s[0]] + s[1..];
      [s[0]] + Insert(x, s[1..])
  }

  /** `[...plans].sort(comparator)`: a stable sort, written as insertion of
      each plan in turn into the sorted earlier plans. */
  function SortPlans(ps: seq<Plan>): (r: seq<Plan>)
    ensures multiset(r) == multiset(ps)
  {
    if ps == [] then []
    else
      assert ps == ps[..|ps| - 1] + [ps[|ps| - 1]];
      Insert(ps[|ps| - 1], SortPlans(ps[..|ps| - 1]))
  }

  lemma {:induction false} InsertSorted(x: Plan, s: seq<Plan>)
    requires SortedByCompare(s)
    ensures SortedByCompare(Insert(x, s))
  {
    if s != [] {
      if Compare(s[0], x) > 0 {
        CompareAntisymmetric(s[0], x);
        forall j | 0 <= j < |s| ensures Compare(x, s[j]) <= 0 {
          if j > 0 {
            CompareTransitive(x, s[0], s[j]);
          }
        }
      } else {
        InsertSorted(x, s[1..]);
        var r := Insert(x, s);
        forall j | 1 <= j < |r| ensures Compare(s[0], r[j]) <= 0 {
          assert r[j] in multiset(Insert(x, s[1..]));
          if r[j] != x {
            assert r[j] in multiset(s[1..]);
            var k :| 0 <= k < |s[1..]| && s[1..][k] == r[j];
            assert Compare(s[0], s[k + 1]) <= 0;
          }
        }
      }
    }
  }

  lemma {:induction false} SortPlansSorted(ps: seq<Plan>)
    ensures SortedByCompare(SortPlans(ps))
  {
    if ps != [] {
      SortPlansSorted(ps[..|ps| - 1]);
      InsertSorted(ps[|ps| - 1], SortPlans(ps[..|ps| - 1]));
    }
  }

  /** The plans of `s` in the slot of `y`, in their order in `s`. */
  function Slot(s: seq<Plan>, y: Plan): (r: seq<Plan>)
    ensures |r| <= |s|
    ensures forall k :: 0 <= k < |r| ==> SameSlot(r[k], y)
  {
    if s == [] then []
    else if SameSlot(s[0], y) then [s[0]] + Slot(s[1..], y)
    else Slot(s[1..], y)
  }

  lemma {:induction false} SlotConcat(a: seq<Plan>, b: seq<Plan>, y: Plan)
    ensures Slot(a + b, y) == Slot(a, y) + Slot(b, y)
  {
    if a != [] {
      assert (a + b)[0] == a[0];
      assert (a + b)[1..] == a[1..] + b;
      SlotConcat(a[1..], b, y);
    } else {
      assert a + b == b;
    }
  }

  lemma {:induction false} SlotNone(s: seq<Plan>, y: Plan)
    requires forall k :: 0 <= k < |s| ==> !SameSlot(s[k], y)
    ensures Slot(s, y) == []
  {
    if s != [] {
      SlotNone(s[1..], y);
    }
  }

  lemma {:induction false} InsertSlot(x: Plan, s: seq<Plan>, y: Plan)
    requires SortedByCompare(s)
    ensures Slot(Insert(x, s), y) == Slot(s, y) + (if SameSlot(x, y) then [x] else [])
  {
    if s == [] {
    } else if Compare(s[0], x) > 0 {
      if SameSlot(x, y) {
        CompareAntisymmetric(s[0], x);
        forall k | 0 <= k < |s| ensures !SameSlot(s[k], y) {
          if k > 0 {
            CompareStrictAfterTie(x, s[0], s[k]);
          }
        }
        SlotNone(s, y);
        assert Insert(x, s) == [x] + s;
      }
    } else {
      InsertSlot(x, s[1..], y);
      assert Insert(x, s) == [s[0]] + Insert(x, s[1..]);
    }
  }

  /** The sort is stable: the plans of each slot keep their order. */
  lemma {:induction false} SortPlansStable(ps: seq<Plan>, y: Plan)
    ensures Slot(SortPlans(ps), y) == Slot(ps, y)
  {
    if ps != [] {
      var init := ps[..|ps| - 1];
      var last := ps[|ps| - 1];
      assert SortPlans(ps) == Insert(last, SortPlans(init));
      SortPlansStable(init, y);
      SortPlansSorted(init);
      InsertSlot(last, SortPlans(init), y);
      assert Slot(SortPlans(ps), y) == Slot(init, y) + (if SameSlot(last, y) then [last] else []);
      assert ps == init + [last];
      SlotConcat(init, [last], y);
      assert Slot([last], y) == (if SameSlot(last, y) then [last] else []);
    }
  }

  /** What the sorted list shows, pair by pair: of two plans on different
      dates the later date comes first; on the same date a later time comes
      first and a timed plan precedes an untimed one. */
  lemma SortedPlansOrder(ps: seq<Plan>)
    ensures var r := SortPlans(ps);
      forall i, j :: 0 <= i < j < |r| ==>
        && (r[i].date != r[j].date ==> StrCompare(r[i].date, r[j].date) > 0)
        && (r[i].date == r[j].date && r[i].time != [] && r[j].time != [] ==>
              StrCompare(r[i].time, r[j].time) >= 0)
        && (r[i].date == r[j].date && r[i].time == [] ==> r[j].time == [])
  {
    var r := SortPlans(ps);
    SortPlansSorted(ps);
    forall i, j | 0 <= i < j < |r|
      ensures r[i].date != r[j].date ==> StrCompare(r[i].date, r[j].date) > 0
      ensures r[i].date == r[j].date && r[i].time != [] && r[j].time != [] ==>
                StrCompare(r[i].time, r[j].time) >= 0
    {
      StrCompareAntisymmetric(r[i].date, r[j].date);
      StrCompareAntisymmetric(r[i].time, r[j].time);
    }
  }

  // =====================================================================
  // Deleting

  /** `plans.filter(plan => plan.id !== id)`. */
  function RemoveId(ps: seq<Plan>, id: int): (r: seq<Plan>)
    ensures |r| <= |ps|
    ensures forall k :: 0 <= k < |r| ==> r[k].id != id
    ensures forall p :: p in ps && p.id != id ==> p in r
    ensures forall p :: p in r ==> p in ps
  {
    if ps == [] then []
    else if ps[0].id != id then [ps[0]] + RemoveId(ps[1..], id)
    else RemoveId(ps[1..], id)
  }

  /** Removing keeps the order of what remains: it works piece by piece. */
  lemma {:induction false} RemoveIdConcat(a: seq<Plan>, b: seq<Plan>, id: int)
    ensures RemoveId(a + b, id) == RemoveId(a, id) + RemoveId(b, id)
  {
    if a != [] {
      assert (a + b)[0] == a[0];
      assert (a + b)[1..] == a[1..] + b;
      RemoveIdConcat(a[1..], b, id);
    } else {
      assert a + b == b;
    }
  }

  /** Only plans with that id go: a list without it comes back unchanged,
      and so deleting twice is deleting once. */
  lemma {:induction false} RemoveIdAbsent(ps: seq<Plan>, id: int)
    requires forall k :: 0 <= k < |ps| ==> ps[k].id != id
    ensures RemoveId(ps, id) == ps
  {
    if ps != [] {
      RemoveIdAbsent(ps[1..], id);
    }
  }

  lemma RemoveIdIdempotent(ps: seq<Plan>, id: int)
    ensures RemoveId(RemoveId(ps, id), id) == RemoveId(ps, id)
  {
    RemoveIdAbsent(RemoveId(ps, id), id);
  }

  /** Deleting the id of a plan just submitted under a fresh id undoes the
      submit. */
  lemma DeleteUndoesSubmit(ps: seq<Plan>, form: PlanForm, now: int)
    requires forall k :: 0 <= k < |ps| ==> ps[k].id != now
    ensures RemoveId(ps + [PlanOf(form, now)], now) == ps
  {
    RemoveIdConcat(ps, [PlanOf(form, now)], now);
    RemoveIdAbsent(ps, now);
  }

  /** Deleting keeps every remaining plan complete. */
  lemma {:induction false} RemoveIdComplete(ps: seq<Plan>, id: int)
    requires AllComplete(ps)
    ensures AllComplete(RemoveId(ps, id))
  {
    if ps != [] {
      RemoveIdComplete(ps[1..], id);
    }
  }

  // =====================================================================
  // Loading

  /** What `localStorage.getItem` gives: nothing, or the saved text. */
  datatype Saved = NothingSaved | SavedText(text: string)

  /** The initial `plans`: an absent or empty entry, or text that
      `JSON.parse` (the parameter `parse`, `None` when it throws) rejects,
      gives the empty list. */
  function LoadPlans(saved: Saved, parse: string -> Option<seq<Plan>>): (r: seq<Plan>)
    ensures saved.NothingSaved? ==> r == []
    ensures saved.SavedText? && (saved.text == [] || parse(saved.text).None?) ==> r == []
    ensures saved.SavedText? && saved.text != [] && parse(saved.text).Some? ==> r == parse(saved.text).value
  {
    match saved
    case NothingSaved => []
    case SavedText(text) =>
      if text == [] then []
      else match parse(text)
        case None => []
        case Some(ps) => ps
  }

  /** Every plan a submit can add has a title and a date. */
  predicate AllComplete(ps: seq<Plan>) {
    forall k :: 0 <= k < |ps| ==> ps[k].title != [] && ps[k].date != []
  }

  // =====================================================================
  // The component state

  class Planner {
    var plans: seq<Plan>
    var form: PlanForm
    var showForm: bool

    /** Mounting the component: the plans are loaded, the form is empty
        and hidden. */
    constructor Load(saved: Saved, parse: string -> Option<seq<Plan>>)
      ensures plans == LoadPlans(saved, parse)
      ensures form == EmptyForm && !showForm
    {
      plans := LoadPlans(saved, parse);
      form := EmptyForm;
      showForm := false;
    }

    /** `handleSubmit`, with `now` the value of `Date.now()`: a form with a
        title and a date is appended as a plan with id `now`, and the form
        is emptied and hidden; otherwise nothing changes. */
    method Submit(now: int)
      modifies this
      ensures old(form.title) != [] && old(form.date) != [] ==>
                && plans == old(plans) + [PlanOf(old(form), now)]
                && form == EmptyForm && !showForm
      ensures old(form.title) == [] || old(form.date) == [] ==>
                plans == old(plans) && form == old(form) && showForm == old(showForm)
      ensures AllComplete(old(plans)) ==> AllComplete(plans)
    {
      if form.title != [] && form.date != [] {
        var p := PlanOf(form, now);
        assert p.title != [] && p.date != [];
        plans := plans + [p];
        form := EmptyForm;
        showForm := false;
      }
    }

    /** `handleDelete(id)`. */
    method Delete(id: int)
      modifies this
      ensures plans == RemoveId(old(plans), id)
      ensures form == old(form) && showForm == old(showForm)
      ensures AllComplete(old(plans)) ==> AllComplete(plans)
    {
      if AllComplete(plans) {
        RemoveIdComplete(plans, id);
      }
      plans := RemoveId(plans, id);
    }

    /** An `onChange` handler of the form. */
    method Edit(f: PlanForm)
      modifies this
      ensures form == f && plans == old(plans) && showForm == old(showForm)
    {
      form := f;
    }

    /** The "Add New Date Plan" and close buttons. */
    method SetShowForm(show: bool)
      modifies this
      ensures showForm == show && plans == old(plans) && form == old(form)
    {
      showForm := show;
    }

    /** `sortedPlans`: a sorted copy; `plans` itself keeps its order. */
    function Sorted(): (r: seq<Plan>)
      reads this
      ensures multiset(r) == multiset(plans)
      ensures SortedByCompare(r)
      ensures r == SortPlans(plans)
    {
      SortPlansSorted(plans);
      SortPlans(plans)
    }
  }
}
