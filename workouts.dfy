/** The workout records: `Workout` and its two variants `Running` and `Cycling` (script.js:17-86). */
module Workouts {
  import opened Wrappers
  import Text

  /** The `type` field: which of the two subclasses a workout is. */
  datatype Kind = Running | Cycling

  /** The string stored in the `type` field. */
  function TypeName(kind: Kind): (s: string)
    ensures KindOf(s) == Some(kind)
  {
    match kind
    case Running => "running"
    case Cycling => "cycling"
  }

  /** The variant a stored `type` string stands for; any other string stands for none. */
  function KindOf(s: string): Option<Kind> {
    if s == "running" then Some(Running)
    else if s == "cycling" then Some(Cycling)
    else None
  }

  /** The only strings that stand for a variant are the two type names: the partner of
      `TypeName`. */
  lemma KindOfTypeName(s: string)
    requires KindOf(s).Some?
    ensures TypeName(KindOf(s).value) == s
  {
  }

  /** `[lat, lng]` of the map click that placed the workout. */
  datatype Coords = Coords(lat: real, lng: real)

  /** `Date.prototype.getMonth()` counts months from 0. */
  type Month = m: nat | m < 12

  /** `Date.prototype.getDate()`: the day of the month. */
  type Day = d: nat | 1 <= d <= 31 witness 1

  /** The part of the creation `Date` that the workout uses. */
  datatype Date = Date(month: Month, day: Day)

  /** What `Math.random()` and `new Date()` supply to one new workout. */
  datatype Stamp = Stamp(id: string, date: Date)

  const MonthNames: seq<string> := ["January", "February", "March", "April", "May", "June",
    "July", "August", "September", "October", "November", "December"]

  function MonthName(m: Month): (name: string)
    ensures ' ' !in name
  {
    MonthNames[m]
  }

  lemma MonthNameInjective(m: Month, n: Month)
    requires MonthName(m) == MonthName(n)
    ensures m == n
  {
  }

  /** The type with its first letter capitalised, followed by " on ". */
  function Heading(kind: Kind): (h: string)
    ensures |h| == 11
    ensures h[0] == (if kind == Running then 'R' else 'C')
  {
    Text.Capitalize(TypeName(kind)) + " on "
  }

  /** The month name, a space and the day of the month. */
  function DayText(date: Date): string {
    MonthName(date.month) + " " + Text.Decimal(date.day)
  }

  /** `_setDescription`: the type with its first letter capitalised, " on ", the month name,
      a space and the day of the month. */
  function Description(kind: Kind, date: Date): (d: string)
    ensures |d| > 11 && d[..11] == Heading(kind)
    ensures d[0] == (if kind == Running then 'R' else 'C')
  {
    Heading(kind) + DayText(date)
  }

  /** The description tells the workout's type and creation day apart. */
  lemma DescriptionInjective(k1: Kind, d1: Date, k2: Kind, d2: Date)
    requires Description(k1, d1) == Description(k2, d2)
    ensures k1 == k2 && d1 == d2
  {
    var s := Description(k1, d1);
    assert s[0] == Heading(k1)[0] == Heading(k2)[0];
    assert DayText(d1) == s[11..] == DayText(d2);
    Text.SplitAtSpace(MonthName(d1.month), Text.Decimal(d1.day), MonthName(d2.month), Text.Decimal(d2.day));
    MonthNameInjective(d1.month, d2.month);
    Text.DecimalInjective(d1.day, d2.day);
  }

  lemma DescriptionRunningExample()
    ensures Description(Running, Date(0, 5)) == "Running on January 5"
  {
  }

  lemma DescriptionCyclingExample()
    ensures Description(Cycling, Date(11, 24)) == "Cycling on December 24"
  {
  }

  /** `calcPace`: `duration / distance` in minutes per kilometre; `None` where JavaScript
      divides by zero and gets Infinity or NaN. */
  function Pace(distance: real, duration: real): (pace: Option<real>)
    ensures pace.Some? <==> distance != 0.0
  {
    if distance == 0.0 then None else Some(duration / distance)
  }

  /** The pace covers the distance in the duration, and is positive for positive inputs. */
  lemma PaceMeaning(distance: real, duration: real)
    ensures Pace(distance, duration).Some? ==> Pace(distance, duration).value * distance == duration
    ensures distance > 0.0 && duration > 0.0 ==> Pace(distance, duration).Some? && Pace(distance, duration).value > 0.0
  {
  }

  /** `calcSpeed`: `distance / (duration / 60)` in kilometres per hour; `None` where the
      divisor is zero. */
  function Speed(distance: real, duration: real): (speed: Option<real>)
    ensures speed.Some? <==> duration != 0.0
  {
    if duration == 0.0 then None else Some(distance / (duration / 60.0))
  }

  /** The speed in kilometres per hour covers the distance in the duration given in minutes,
      and is positive for positive inputs. */
  lemma SpeedMeaning(distance: real, duration: real)
    ensures Speed(distance, duration).Some? ==> Speed(distance, duration).value * duration == distance * 60.0
    ensures distance > 0.0 && duration > 0.0 ==> Speed(distance, duration).Some? && Speed(distance, duration).value > 0.0
  {
  }

  /** The derived metric of each variant: pace for running, speed for cycling. */
  function Derived(kind: Kind, distance: real, duration: real): (r: Option<real>)
    ensures r.Some? <==> if kind == Running then distance != 0.0 else duration != 0.0
  {
    match kind
    case Running => Pace(distance, duration)
    case Cycling => Speed(distance, duration)
  }

  lemma DerivedExamples()
    ensures Derived(Running, 5.0, 30.0) == Some(6.0)
    ensures Derived(Cycling, 20.0, 60.0) == Some(20.0)
  {
  }

  /** A workout as `JSON.stringify` keeps it: every field by value. `tag` is the `type` field, `extra` is `cadence` for
      running and `elvGain` for cycling; `metric` is `pace` or `speed`. */
  datatype Record = Record(
    tag: string, id: string, coords: Coords, date: Date,
    distance: real, duration: real, extra: real, metric: Option<real>,
    clicks: nat, description: string)

  /** The state of a workout right after `new Running(...)` or `new Cycling(...)`. */
  function FreshRecord(kind: Kind, coords: Coords, distance: real, duration: real, extra: real, stamp: Stamp): (r: Record)
    ensures KindOf(r.tag) == Some(kind)
    ensures r.clicks == 0 && r.id == stamp.id && r.date == stamp.date
    ensures |r.description| > 11 && r.description[..11] == Heading(kind)
  {
    Record(TypeName(kind), stamp.id, coords, stamp.date, distance, duration, extra,
           Derived(kind, distance, duration), 0, Description(kind, stamp.date))
  }

  /** One object of class `Running` or `Cycling`. The fields that the source never assigns
      after construction are constants. */
  class Workout {
    const kind: Kind
    const id: string
    const coords: Coords
    const date: Date
    const description: string
    var distance: real
    var duration: real
    /** `cadence` (steps per minute) for running, `elvGain` (metres) for cycling. */
    var extra: real
    /** `pace` for running, `speed` for cycling, as last computed. */
    var metric: Option<real>
    var clicks: nat

    /** `new Running(coords, distance, duration, cadence)` or
        `new Cycling(coords, distance, duration, elvGain)`. */
    constructor (kind: Kind, coords: Coords, distance: real, duration: real, extra: real, stamp: Stamp)
      ensures this.kind == kind && id == stamp.id && this.coords == coords && date == stamp.date
      ensures this.distance == distance && this.duration == duration && this.extra == extra
      ensures clicks == 0
      ensures metric == Derived(kind, distance, duration)
      ensures description == Description(kind, stamp.date)
      ensures Snapshot(this) == FreshRecord(kind, coords, distance, duration, extra, stamp)
    {
      this.kind := kind;
      this.id := stamp.id;
      this.coords := coords;
      this.date := stamp.date;
      this.distance := distance;
      this.duration := duration;
      this.extra := extra;
      this.metric := Derived(kind, distance, duration);
      this.clicks := 0;
      this.description := Description(kind, stamp.date);
    }

    /** `click`: one more focus on the workout. */
    method Click()
      modifies this`clicks
      ensures clicks == old(clicks) + 1
      ensures distance == old(distance) && duration == old(duration)
      ensures extra == old(extra) && metric == old(metric)
    {
      clicks := clicks + 1;
    }

    /** `update`: overwrites the three entered values; the metric keeps its old value. */
    method Update(distance: real, duration: real, extra: real)
      modifies this`distance, this`duration, this`extra
      ensures this.distance == distance && this.duration == duration && this.extra == extra
      ensures metric == old(metric) && clicks == old(clicks)
    {
      this.distance := distance;
      this.duration := duration;
      this.extra := extra;
    }

    /** `calcPace`, defined on running workouts only. */
    method CalcPace() returns (pace: Option<real>)
      requires kind == Running
      modifies this`metric
      ensures metric == pace == Pace(distance, duration)
    {
      metric := Pace(distance, duration);
      pace := metric;
    }

    /** `calcSpeed`, defined on cycling workouts only. */
    method CalcSpeed() returns (speed: Option<real>)
      requires kind == Cycling
      modifies this`metric
      ensures metric == speed == Speed(distance, duration)
    {
      metric := Speed(distance, duration);
      speed := metric;
    }
  }

  /** What `JSON.stringify` writes for one workout. */
  function Snapshot(w: Workout): (r: Record)
    reads w
    ensures KindOf(r.tag) == Some(w.kind)
  {
    Record(TypeName(w.kind), w.id, w.coords, w.date, w.distance, w.duration, w.extra,
           w.metric, w.clicks, w.description)
  }

  /** What `JSON.stringify` writes for a list of workouts. */
  function Snapshots(ws: seq<Workout>): (rs: seq<Record>)
    reads ws
    ensures |rs| == |ws|
  {
    seq(|ws|, k reads ws requires 0 <= k < |ws| => Snapshot(ws[k]))
  }

  /** The serialised list holds one record per workout, in the list's order. */
  lemma SnapshotsElementwise(ws: seq<Workout>)
    ensures forall k :: 0 <= k < |ws| ==> Snapshots(ws)[k] == Snapshot(ws[k])
  {
  }

  /** Serialising a list is element by element, so it distributes over concatenation. */
  lemma SnapshotsAppend(a: seq<Workout>, b: seq<Workout>)
    ensures Snapshots(a + b) == Snapshots(a) + Snapshots(b)
  {
    forall k | 0 <= k < |a| + |b|
      ensures Snapshots(a + b)[k] == (Snapshots(a) + Snapshots(b))[k]
    {
      if k < |a| {
        assert (a + b)[k] == a[k];
      } else {
        assert (a + b)[k] == b[k - |a|];
      }
    }
  }
}
