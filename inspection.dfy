/**
 * The record parsing and time-window arithmetic of the inspection analyser
 * (wanzixixunchagailv.py): a record line `<teacher> H:MM` or `<teacher> H:MM:SS`, the
 * analysis window from start_time to end_time (which may wrap past midnight), its cut
 * into segments of segment_minutes, and the filter that keeps the records of a data file
 * that fall inside the window.
 *
 * Times are compared by their minute of the day; the window is closed at both ends, a
 * segment is half open. The segments cover every minute of the window but its last one
 * exactly once, and no minute outside it.
 */
module Inspection {
  import opened PyText
  import opened Decimal

  /** A datetime.time: hour, minute, second. */
  datatype Time = Time(hour: int, minute: int, second: int)

  predicate ValidTime(t: Time) {
    0 <= t.hour < 24 && 0 <= t.minute < 60 && 0 <= t.second < 60
  }

  datatype Record = Record(teacher: string, time: Time)

  const DAY := 24 * 60

  // ---------------------------------------------------------------------------
  // Quotes

  /** str.replace("'", ""). */
  function RemoveQuotes(s: string): (r: string)
    ensures '\'' !in r
    ensures forall c :: c in r <==> c in s && c != '\''
  {
    if s == [] then [] else (if s[0] == '\'' then [] else [s[0]]) + RemoveQuotes(s[1..])
  }

  // ---------------------------------------------------------------------------
  // strptime

  /** A %H, %M or %S field: one or two digits whose value is at most max. */
  function Field(p: string, max: nat): (r: Option<nat>)
    ensures r.Some? ==> r.value <= max
  {
    if 1 <= |p| <= 2 && IsDigit(p[0]) && IsDigit(p[|p| - 1]) then
      var v := DigitsValue(p);
      if v <= max then Some(v) else None
    else None
  }

  /** datetime.strptime(s, '%H:%M') when s has one colon, '%H:%M:%S' otherwise, then
      .time(). A second of 60 or 61 passes the %S pattern but not the time constructor. */
  function Strptime(s: string): (r: Result<Time>)
    ensures r.Ok? ==> ValidTime(r.value)
  {
    var parts := Split(s, ':');
    if |parts| == 2 then
      match (Field(parts[0], 23), Field(parts[1], 59))
      case (Some(h), Some(m)) => Ok(Time(h, m, 0))
      case _ => Error
    else if |parts| == 3 then
      match (Field(parts[0], 23), Field(parts[1], 59), Field(parts[2], 61))
      case (Some(h), Some(m), Some(sec)) => if sec < 60 then Ok(Time(h, m, sec)) else Error
      case _ => Error
    else Error
  }

  /** The two digits of 0 <= v < 100. */
  function Pad2(v: int): (ds: string)
    requires 0 <= v < 100
    ensures |ds| == 2 && IsDigit(ds[0]) && IsDigit(ds[1])
  {
    ['0' + (v / 10) as char, '0' + (v % 10) as char]
  }

  lemma Pad2Value(v: int)
    requires 0 <= v < 100
    ensures DigitsValue(Pad2(v)) == v
  {
    var ds := Pad2(v);
    assert ds[..1][..0] == [];
    assert DigitsValue(ds[..1]) == v / 10;
  }

  /** strptime reads back the time written as HH:MM. */
  lemma StrptimeShow(h: int, m: int)
    requires 0 <= h < 24 && 0 <= m < 60
    ensures Strptime(Pad2(h) + ":" + Pad2(m)) == Ok(Time(h, m, 0))
  {
    var s := Pad2(h) + ":" + Pad2(m);
    assert s[2] == ':' && s[..2] == Pad2(h) && s[3..] == Pad2(m);
    assert IndexOf(s, ':') == 2;
    assert ':' !in Pad2(m);
    assert Split(s, ':') == [Pad2(h), Pad2(m)];
    Pad2Value(h);
    Pad2Value(m);
  }

  // ---------------------------------------------------------------------------
  // from_string

  /** Three characters `:DD`, repeated. */
  predicate ColonPairs(t: string)
    decreases |t|
  {
    t == [] || (|t| >= 3 && t[0] == ':' && IsDigit(t[1]) && IsDigit(t[2]) && ColonPairs(t[3..]))
  }

  /** The length of the time group the pattern `\s+(\d{1,2}(:\d{2}){colons})$` finds at the
      end of s, or 0 when s does not end that way. */
  function TimeTail(s: string, colons: nat): (n: nat)
    ensures n == 0 || (n < |s| && IsSpace(s[|s| - n - 1]))
  {
    var fixed := 3 * colons;
    if |s| >= fixed + 3 && ColonPairs(s[|s| - fixed..]) && IsDigit(s[|s| - fixed - 1]) &&
      IsDigit(s[|s| - fixed - 2]) && IsSpace(s[|s| - fixed - 3])
    then fixed + 2
    else if |s| >= fixed + 2 && ColonPairs(s[|s| - fixed..]) && IsDigit(s[|s| - fixed - 1]) &&
      IsSpace(s[|s| - fixed - 2])
    then fixed + 1
    else 0
  }

  /** Where the run of white space that ends at j begins. */
  function RunStart(s: string, j: nat): (k: nat)
    requires j <= |s|
    ensures k <= j && forall i :: k <= i < j ==> IsSpace(s[i])
    ensures k == 0 || !IsSpace(s[k - 1])
  {
    if j > 0 && IsSpace(s[j - 1]) then RunStart(s, j - 1) else j
  }

  /** re.match(r'^(.+?)\s+(<time>)$', s): the shortest name (no line break in it) that
      leaves white space and then the time group. */
  function MatchRecord(s: string, colons: nat): (r: Option<(string, string)>)
    ensures r.Some? ==> r.value.0 != [] && '\n' !in r.value.0
  {
    var n := TimeTail(s, colons);
    if n == 0 then None
    else
      var j := |s| - n;
      var k := RunStart(s, j);
      var i := if k >= 1 then k else 1;
      if i < j && '\n' !in s[..i] then Some((s[..i], s[j..])) else None
  }

  /** Names that stand for an unknown teacher. */
  const UNKNOWN_NAMES: set<string> := {"unknown", "unknow", "未知"}

  /** The teacher field: the unknown names become "unknown", other names lose their single
      quotes. */
  function Teacher(name: string): (t: string)
    ensures '\'' !in t
    ensures Lower(name) in UNKNOWN_NAMES ==> t == "unknown"
  {
    if Lower(name) in UNKNOWN_NAMES then "unknown" else RemoveQuotes(name)
  }

  /** InspectionRecord.from_string: a record, or the ValueError raised for a line that is
      not `<name> H:MM` or `<name> H:MM:SS`, or whose time is out of range. */
  function FromString(line: string): (r: Result<Record>)
    ensures r.Ok? ==> ValidTime(r.value.time) && '\'' !in r.value.teacher
  {
    var s := Strip(line);
    RecordOf(if MatchRecord(s, 1).Some? then MatchRecord(s, 1) else MatchRecord(s, 2))
  }

  /** The record the two matched groups make. */
  function RecordOf(m: Option<(string, string)>): (r: Result<Record>)
    ensures r.Ok? ==> ValidTime(r.value.time) && '\'' !in r.value.teacher
  {
    match m
    case None => Error
    case Some((name, timeStr)) =>
      match Strptime(timeStr)
      case Error => Error
      case Ok(t) => if t.hour >= 24 then Error else Ok(Record(Teacher(Strip(name)), t))
  }

  /** The pattern finds the name and the time in `<name> HH:MM`. */
  lemma MatchShow(name: string, t: string)
    requires name != [] && !IsSpace(name[|name| - 1]) && '\n' !in name
    requires |t| == 5 && IsDigit(t[0]) && IsDigit(t[1]) && t[2] == ':' && IsDigit(t[3]) && IsDigit(t[4])
    ensures MatchRecord(name + " " + t, 1) == Some((name, t))
  {
    var s := name + " " + t;
    assert s[|s| - 3..] == t[2..] && ColonPairs(t[2..]) by {
      assert t[2..][3..] == [];
    }
    assert s[|s| - 4] == t[1] && s[|s| - 5] == t[0] && s[|s| - 6] == ' ';
    assert TimeTail(s, 1) == 5;
    var j := |s| - 5;
    assert RunStart(s, j) == |name| by {
      assert s[|name|] == ' ' && s[|name| - 1] == name[|name| - 1];
    }
    assert s[..|name|] == name && s[j..] == t;
  }

  /** A line written as `<name> HH:MM` reads back as that teacher at that time, for a name
      with no white space at its ends and no line break. */
  lemma FromStringShow(name: string, h: int, m: int)
    requires name != [] && !IsSpace(name[0]) && !IsSpace(name[|name| - 1]) && '\n' !in name
    requires 0 <= h < 24 && 0 <= m < 60
    ensures FromString(name + " " + Pad2(h) + ":" + Pad2(m)) == Ok(Record(Teacher(name), Time(h, m, 0)))
  {
    var t := Pad2(h) + ":" + Pad2(m);
    var line := name + " " + t;
    assert line == name + " " + Pad2(h) + ":" + Pad2(m);
    ShowLineMatches(name, h, m);
    ShowRecord(name, h, m);
  }

  lemma ShowLineMatches(name: string, h: int, m: int)
    requires name != [] && !IsSpace(name[0]) && !IsSpace(name[|name| - 1]) && '\n' !in name
    requires 0 <= h < 24 && 0 <= m < 60
    ensures var line := name + " " + (Pad2(h) + ":" + Pad2(m));
      Strip(line) == line && MatchRecord(line, 1) == Some((name, Pad2(h) + ":" + Pad2(m)))
  {
    var t := Pad2(h) + ":" + Pad2(m);
    assert |t| == 5 && IsDigit(t[0]) && IsDigit(t[1]) && t[2] == ':' && IsDigit(t[3]) && IsDigit(t[4]);
    StripLine(name, t);
    MatchShow(name, t);
  }

  lemma StripLine(name: string, t: string)
    requires name != [] && !IsSpace(name[0]) && |t| == 5 && IsDigit(t[4])
    ensures Strip(name + " " + t) == name + " " + t
  {
    var line := name + " " + t;
    assert line[0] == name[0] && line[|line| - 1] == t[4];
    StripClean(line);
  }

  lemma ShowRecord(name: string, h: int, m: int)
    requires name != [] && !IsSpace(name[0]) && !IsSpace(name[|name| - 1])
    requires 0 <= h < 24 && 0 <= m < 60
    ensures RecordOf(Some((name, Pad2(h) + ":" + Pad2(m)))) == Ok(Record(Teacher(name), Time(h, m, 0)))
  {
    StripClean(name);
    StrptimeShow(h, m);
  }

  // ---------------------------------------------------------------------------
  // The analysis window

  /** _time_to_minutes: the minute of the day (seconds are ignored). */
  function Minutes(t: Time): int {
    t.hour * 60 + t.minute
  }

  /** _is_time_in_range: start <= check <= end by the minute, where an end before the start
      means the window wraps past midnight. The window always holds its own start and end
      minutes, and a window whose ends agree holds that minute alone. */
  function InRange(start: Time, end: Time, check: Time): (r: bool)
    ensures ValidTime(start) && ValidTime(end) && (Minutes(check) == Minutes(start) || Minutes(check) == Minutes(end)) ==> r
    ensures Minutes(start) == Minutes(end) ==> (r <==> Minutes(check) == Minutes(start))
  {
    var s, e, c := Minutes(start), Minutes(end), Minutes(check);
    if e < s then s <= (if c < s then c + DAY else c) <= e + DAY else s <= c <= e
  }

  /** _is_time_in_segment: the same test, but open at the segment's end: a segment holds
      its start minute (unless it is empty) but never its end minute, and holds only
      times its window holds. */
  function InSegment(check: Time, segment: (Time, Time)): (r: bool)
    ensures Minutes(check) == Minutes(segment.1) ==> !r
    ensures ValidTime(segment.0) && ValidTime(segment.1) ==>
      (Minutes(check) == Minutes(segment.0) != Minutes(segment.1) ==> r)
    ensures r ==> InRange(segment.0, segment.1, check)
  {
    var s, e, c := Minutes(segment.0), Minutes(segment.1), Minutes(check);
    if e < s then s <= (if c < s then c + DAY else c) < e + DAY else s <= c < e
  }

  /** The window's end as a minute count from the start's midnight. */
  function WindowEnd(start: Time, end: Time): int {
    if Minutes(end) < Minutes(start) then Minutes(end) + DAY else Minutes(end)
  }

  /** A minute of the day placed in the window's frame: minutes before the start of a
      wrapping window belong to the next day. */
  function Unwrap(start: Time, end: Time, check: Time): int {
    if Minutes(end) < Minutes(start) && Minutes(check) < Minutes(start) then Minutes(check) + DAY
    else Minutes(check)
  }

  /** The window holds exactly the minutes from its start to its end, both included. */
  lemma InRangeIsWindow(start: Time, end: Time, check: Time)
    ensures InRange(start, end, check) <==> Minutes(start) <= Unwrap(start, end, check) <= WindowEnd(start, end)
  {
  }

  /** time(h, m) for a minute count of up to two days, the hour brought back under 24. */
  function ClockOf(m: int): (t: Time)
    requires 0 <= m < 2 * DAY
    ensures ValidTime(t) && t.second == 0
    ensures Minutes(t) == if m >= DAY then m - DAY else m
  {
    var h := m / 60;
    Time(if h >= 24 then h - 24 else h, m % 60, 0)
  }

  /** The segment bounds from cur to end, in steps of at most len minutes. */
  function Bounds(cur: int, end: int, len: int): (b: seq<(int, int)>)
    requires len > 0
    ensures forall i :: 0 <= i < |b| ==> cur <= b[i].0 < b[i].1 <= end && b[i].1 - b[i].0 <= len
    decreases end - cur
  {
    if cur >= end then []
    else
      var next := if cur + len < end then cur + len else end;
      [(cur, next)] + Bounds(next, end, len)
  }

  /** The bounds follow one another from cur to end without gap or overlap. */
  lemma {:induction false} BoundsContiguous(cur: int, end: int, len: int)
    requires len > 0
    ensures var b := Bounds(cur, end, len);
      (b == [] <==> cur >= end) &&
      (b != [] ==> b[0].0 == cur && b[|b| - 1].1 == end) &&
      (forall i :: 0 <= i < |b| - 1 ==> b[i].1 == b[i + 1].0)
    decreases end - cur
  {
    if cur < end {
      var next := if cur + len < end then cur + len else end;
      BoundsContiguous(next, end, len);
    }
  }

  /** Every minute from cur up to (not including) end lies in a bound; k is its index. */
  lemma {:induction false} BoundsCover(cur: int, end: int, len: int, u: int) returns (k: nat)
    requires len > 0 && cur <= u < end
    ensures var b := Bounds(cur, end, len);
      k < |b| && b[k].0 <= u < b[k].1
    decreases end - cur
  {
    var next := if cur + len < end then cur + len else end;
    var b := Bounds(cur, end, len);
    var rest := Bounds(next, end, len);
    assert b == [(cur, next)] + rest;
    if u >= next {
      var i := BoundsCover(next, end, len, u);
      assert b[i + 1] == rest[i];
      k := i + 1;
    } else {
      k := 0;
    }
  }

  /** No minute lies in two bounds. */
  lemma BoundsDisjoint(cur: int, end: int, len: int, u: int, i: int, j: int)
    requires len > 0
    requires var b := Bounds(cur, end, len);
      0 <= i < |b| && 0 <= j < |b| && b[i].0 <= u < b[i].1 && b[j].0 <= u < b[j].1
    ensures i == j
  {
    var b := Bounds(cur, end, len);
    BoundsContiguous(cur, end, len);
    if i < j {
      BoundsIncrease(b, i, j);
    } else if j < i {
      BoundsIncrease(b, j, i);
    }
  }

  lemma {:induction false} BoundsIncrease(b: seq<(int, int)>, i: int, j: int)
    requires forall k :: 0 <= k < |b| ==> b[k].0 < b[k].1
    requires forall k :: 0 <= k < |b| - 1 ==> b[k].1 == b[k + 1].0
    requires 0 <= i < j < |b|
    ensures b[i].1 <= b[j].0
    decreases j - i
  {
    if j > i + 1 {
      BoundsIncrease(b, i, j - 1);
    }
  }

  /** _create_time_segments as a value: the bounds of the window, as times of day. */
  function Segments(start: Time, end: Time, len: int): (segs: seq<(Time, Time)>)
    requires ValidTime(start) && ValidTime(end) && len > 0
    ensures var b := Bounds(Minutes(start), WindowEnd(start, end), len);
      |segs| == |b| && forall i :: 0 <= i < |b| ==> segs[i] == (ClockOf(b[i].0), ClockOf(b[i].1))
  {
    SegmentsFromBounds(Minutes(start), WindowEnd(start, end), len);
    SegmentsFrom(Minutes(start), WindowEnd(start, end), len)
  }

  lemma {:induction false} SegmentsFromBounds(cur: int, end: int, len: int)
    requires len > 0 && 0 <= cur && end < 2 * DAY
    ensures var b := Bounds(cur, end, len);
      var segs := SegmentsFrom(cur, end, len);
      |segs| == |b| && forall i :: 0 <= i < |b| ==> segs[i] == (ClockOf(b[i].0), ClockOf(b[i].1))
    decreases end - cur
  {
    if cur < end {
      var next := if cur + len < end then cur + len else end;
      SegmentsFromBounds(next, end, len);
    }
  }

  function SegmentsFrom(cur: int, end: int, len: int): (segs: seq<(Time, Time)>)
    requires len > 0 && 0 <= cur && end < 2 * DAY
    decreases end - cur
  {
    if cur >= end then []
    else
      var next := if cur + len < end then cur + len else end;
      [(ClockOf(cur), ClockOf(next))] + SegmentsFrom(next, end, len)
  }

  lemma SegmentsFromStep(cur: int, end: int, len: int)
    requires len > 0 && 0 <= cur < end < 2 * DAY
    ensures var next := if cur + len < end then cur + len else end;
      SegmentsFrom(cur, end, len) == [(ClockOf(cur), ClockOf(next))] + SegmentsFrom(next, end, len)
  {
  }

  /** A segment of the window holds a time exactly when its bounds hold the time's minute in
      the window's frame. */
  lemma SegmentHolds(start: Time, end: Time, a: int, b: int, check: Time)
    requires ValidTime(start) && ValidTime(end) && ValidTime(check)
    requires Minutes(start) <= a < b <= WindowEnd(start, end)
    ensures InSegment(check, (ClockOf(a), ClockOf(b))) <==> a <= Unwrap(start, end, check) < b
  {
  }

  /** The segments cover the window: a time inside it other than its last minute lies in
      exactly one segment, the last minute and every time outside it in none. */
  lemma SegmentsPartitionWindow(start: Time, end: Time, len: int, check: Time)
    requires ValidTime(start) && ValidTime(end) && ValidTime(check) && len > 0
    ensures var segs := Segments(start, end, len);
      (InRange(start, end, check) && Minutes(check) != Minutes(end) ==>
        exists i :: 0 <= i < |segs| && InSegment(check, segs[i])) &&
      (!InRange(start, end, check) || Minutes(check) == Minutes(end) ==>
        forall i :: 0 <= i < |segs| ==> !InSegment(check, segs[i])) &&
      (forall i, j :: 0 <= i < |segs| && 0 <= j < |segs| && InSegment(check, segs[i]) && InSegment(check, segs[j]) ==> i == j)
  {
    var segs := Segments(start, end, len);
    var s, e := Minutes(start), WindowEnd(start, end);
    var b := Bounds(s, e, len);
    var u := Unwrap(start, end, check);
    forall i | 0 <= i < |segs|
      ensures InSegment(check, segs[i]) <==> b[i].0 <= u < b[i].1
    {
      SegmentHolds(start, end, b[i].0, b[i].1, check);
    }
    InRangeIsWindow(start, end, check);
    if s <= u < e {
      var k := BoundsCover(s, e, len, u);
      assert InSegment(check, segs[k]);
    }
    forall i, j | 0 <= i < |segs| && 0 <= j < |segs| && InSegment(check, segs[i]) && InSegment(check, segs[j])
      ensures i == j
    {
      BoundsDisjoint(s, e, len, u, i, j);
    }
  }

  /** The segments run from the start's minute to the end's, each following the last. */
  lemma SegmentsContiguous(start: Time, end: Time, len: int)
    requires ValidTime(start) && ValidTime(end) && len > 0
    ensures var segs := Segments(start, end, len);
      (segs == [] <==> Minutes(start) == Minutes(end)) &&
      (segs != [] ==> Minutes(segs[0].0) == Minutes(start) && Minutes(segs[|segs| - 1].1) == Minutes(end)) &&
      (forall i :: 0 <= i < |segs| - 1 ==> segs[i].1 == segs[i + 1].0)
  {
    BoundsContiguous(Minutes(start), WindowEnd(start, end), len);
  }

  // ---------------------------------------------------------------------------
  // Loading a data file

  /** The record a line of the data file gives: none for a line that is blank once
      stripped, or that does not parse. */
  function ParseLine(line: string): Result<Record> {
    var s := Strip(line);
    if s == [] then Error else FromString(s)
  }

  /** What one line adds to the records: its record when its time is inside the window. */
  function KeptLine(line: string, start: Time, end: Time): (rs: seq<Record>)
    ensures rs == [] || (ParseLine(line).Ok? && rs == [ParseLine(line).value] && InRange(start, end, rs[0].time))
    ensures ParseLine(line).Ok? && InRange(start, end, ParseLine(line).value.time) ==> rs != []
  {
    var r := ParseLine(line);
    if r.Ok? && InRange(start, end, r.value.time) then [r.value] else []
  }

  /** The items f gives for each line, concatenated in line order. */
  function Gather<T>(lines: seq<string>, f: string -> seq<T>): seq<T> {
    if lines == [] then [] else Gather(lines[..|lines| - 1], f) + f(lines[|lines| - 1])
  }

  lemma {:induction false} GatherMembers<T>(lines: seq<string>, f: string -> seq<T>, v: T)
    ensures v in Gather(lines, f) <==> exists i :: 0 <= i < |lines| && v in f(lines[i])
  {
    if lines != [] {
      var init := lines[..|lines| - 1];
      GatherMembers(init, f, v);
      assert forall i :: 0 <= i < |init| ==> init[i] == lines[i];
      if v in f(lines[|lines| - 1]) {
        assert 0 <= |lines| - 1 < |lines|;
      }
    }
  }

  /** The records load_data keeps from the given lines, in file order. */
  function Kept(lines: seq<string>, start: Time, end: Time): seq<Record> {
    Gather(lines, line => KeptLine(line, start, end))
  }

  /** Reading one more line adds what that line keeps. */
  lemma KeptStep(lines: seq<string>, i: int, start: Time, end: Time)
    requires 0 <= i < |lines|
    ensures Kept(lines[..i + 1], start, end) == Kept(lines[..i], start, end) + KeptLine(lines[i], start, end)
  {
    assert lines[..i + 1][..i] == lines[..i] && lines[..i + 1][i] == lines[i];
  }

  /** A record is kept exactly when some line of the file parses to it inside the window. */
  lemma KeptMembers(lines: seq<string>, start: Time, end: Time, rec: Record)
    ensures rec in Kept(lines, start, end) <==>
      exists i :: 0 <= i < |lines| && ParseLine(lines[i]) == Ok(rec) && InRange(start, end, rec.time)
  {
    var f := line => KeptLine(line, start, end);
    GatherMembers(lines, f, rec);
    if rec in Kept(lines, start, end) {
      var i :| 0 <= i < |lines| && rec in f(lines[i]);
      KeptLineMember(lines[i], start, end, rec);
    }
    if exists i :: 0 <= i < |lines| && ParseLine(lines[i]) == Ok(rec) && InRange(start, end, rec.time) {
      var i :| 0 <= i < |lines| && ParseLine(lines[i]) == Ok(rec) && InRange(start, end, rec.time);
      KeptLineMember(lines[i], start, end, rec);
      assert rec in f(lines[i]);
    }
  }

  /** One line keeps a record exactly when it parses to it inside the window. */
  lemma KeptLineMember(line: string, start: Time, end: Time, rec: Record)
    ensures rec in KeptLine(line, start, end) <==> ParseLine(line) == Ok(rec) && InRange(start, end, rec.time)
  {
  }

  // ---------------------------------------------------------------------------
  // Chart layout

  /** calculate_label_interval: label every bar up to 12 bars, then every 2nd, 4th, 6th,
      and beyond 72 bars every max(8, n // 10)th. */
  function LabelInterval(n: int): (k: int)
    ensures k >= 1
  {
    if n <= 12 then 1
    else if n <= 24 then 2
    else if n <= 48 then 4
    else if n <= 72 then 6
    else if 8 < n / 10 then n / 10 else 8
  }

  /** More bars never get denser labels. */
  lemma LabelIntervalMonotone(n: int, m: int)
    requires n <= m
    ensures LabelInterval(n) <= LabelInterval(m)
  {
    if m > 72 {
      assert n / 10 <= m / 10;
    }
  }

  /** calculate_font_size: 10 points up to 12 bars, one point less per step, 6 beyond 48. */
  function FontSize(n: int): (size: int)
    ensures 6 <= size <= 10
  {
    if n <= 12 then 10
    else if n <= 24 then 9
    else if n <= 36 then 8
    else if n <= 48 then 7
    else 6
  }

  /** More bars never get a larger font. */
  lemma FontSizeMonotone(n: int, m: int)
    requires n <= m
    ensures FontSize(m) <= FontSize(n)
  {
  }

  // ---------------------------------------------------------------------------
  // The processor

  class InspectionDataProcessor {
    const segmentMinutes: int
    const startTime: Time
    const endTime: Time
    var records: seq<Record>

    /** __init__, with start_time and end_time already read by ParseTimeString. */
    constructor (segmentMinutes: int, startTime: Time, endTime: Time)
      ensures this.segmentMinutes == segmentMinutes && this.startTime == startTime && this.endTime == endTime
      ensures records == []
    {
      this.segmentMinutes := segmentMinutes;
      this.startTime := startTime;
      this.endTime := endTime;
      records := [];
    }

    /** load_data over the lines of the file: the records kept, and false for the
        ValueError raised when none is. */
    method LoadData(lines: seq<string>) returns (found: bool)
      modifies this`records
      ensures records == Kept(lines, startTime, endTime)
      ensures found <==> records != []
    {
      records := [];
      var i := 0;
      while i < |lines|
        invariant 0 <= i <= |lines|
        invariant records == Kept(lines[..i], startTime, endTime)
      {
        KeptStep(lines, i, startTime, endTime);
        var line := Strip(lines[i]);
        if line != [] {
          var r := FromString(line);
          if r.Ok? && InRange(startTime, endTime, r.value.time) {
            records := records + [r.value];
          }
        }
        i := i + 1;
      }
      assert lines[..i] == lines;
      found := records != [];
    }

    /** The hour and minute of a minute count, the hour brought back under 24, as the loop
        of _create_time_segments computes them for both ends of a segment. */
    static method ClockAt(minutes: int) returns (t: Time)
      requires 0 <= minutes < 2 * DAY
      ensures t == ClockOf(minutes)
    {
      var hour := minutes / 60;
      var minute := minutes % 60;
      if hour >= 24 {
        hour := hour - 24;
      }
      t := Time(hour, minute, 0);
    }

    /** _create_time_segments: segments of segment_minutes from the start to the end of the
        window, the last one shorter when the window does not divide evenly. */
    method CreateTimeSegments() returns (segments: seq<(Time, Time)>)
      requires ValidTime(startTime) && ValidTime(endTime) && segmentMinutes > 0
      ensures segments == Segments(startTime, endTime, segmentMinutes)
    {
      var startMinutes := startTime.hour * 60 + startTime.minute;
      var endMinutes := endTime.hour * 60 + endTime.minute;
      if endMinutes < startMinutes {
        endMinutes := endMinutes + 24 * 60;
      }
      assert startMinutes == Minutes(startTime) && endMinutes == WindowEnd(startTime, endTime);
      segments := SegmentsLoop(startMinutes, endMinutes, segmentMinutes);
    }

    /** The loop of _create_time_segments, from startMinutes to endMinutes. */
    static method SegmentsLoop(startMinutes: int, endMinutes: int, segmentMinutes: int)
      returns (segments: seq<(Time, Time)>)
      requires 0 <= startMinutes && endMinutes < 2 * DAY && segmentMinutes > 0
      ensures segments == SegmentsFrom(startMinutes, endMinutes, segmentMinutes)
    {
      segments := [];
      var currentMinutes := startMinutes;
      while currentMinutes < endMinutes
        invariant startMinutes <= currentMinutes
        invariant segments + SegmentsFrom(currentMinutes, endMinutes, segmentMinutes) ==
          SegmentsFrom(startMinutes, endMinutes, segmentMinutes)
        decreases endMinutes - currentMinutes
      {
        var startSegment := ClockAt(currentMinutes);
        var nextMinutes := if currentMinutes + segmentMinutes < endMinutes then currentMinutes + segmentMinutes else endMinutes;
        var endSegment := ClockAt(nextMinutes);
        SegmentsFromStep(currentMinutes, endMinutes, segmentMinutes);
        assert segments + [(startSegment, endSegment)] + SegmentsFrom(nextMinutes, endMinutes, segmentMinutes) ==
          segments + SegmentsFrom(currentMinutes, endMinutes, segmentMinutes);
        segments := segments + [(startSegment, endSegment)];
        currentMinutes := nextMinutes;
      }
      assert SegmentsFrom(currentMinutes, endMinutes, segmentMinutes) == [];
      assert segments + [] == segments;
    }
  }

  /** _parse_time_string, which __init__ applies to its start and end arguments. */
  function ParseTimeString(s: string): (r: Result<Time>)
    ensures r.Ok? ==> ValidTime(r.value)
  {
    Strptime(s)
  }
}
