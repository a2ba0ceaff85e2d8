/**
  Naming of walk-forward result files and selection of the most recent one
  (`save_walk_forward_results` and `load_latest_wfv_results` in
  scripts/validate.py). The clock and the directory listing are inputs; the
  CSV contents are not modelled.
*/
module ResultFiles {
  import opened Wrappers
  import LexOrder

  /** A naive local `datetime`, as `datetime.now()` returns it. */
  datatype DateTime = DateTime(year: int, month: int, day: int,
                               hour: int, minute: int, second: int, microsecond: int)

  predicate IsLeapYear(year: int)
  {
    year % 4 == 0 && (year % 100 != 0 || year % 400 == 0)
  }

  function DaysInMonth(year: int, month: int): (days: int)
    requires 1 <= month <= 12
  {
    if month == 2 then (if IsLeapYear(year) then 29 else 28)
    else if month == 4 || month == 6 || month == 9 || month == 11 then 30
    else 31
  }

  /** The values Python's `datetime` constructor accepts (MINYEAR = 1, MAXYEAR = 9999). */
  predicate Valid(dt: DateTime)
  {
    && 1 <= dt.year <= 9999
    && 1 <= dt.month <= 12
    && 1 <= dt.day <= DaysInMonth(dt.year, dt.month)
    && 0 <= dt.hour < 24
    && 0 <= dt.minute < 60
    && 0 <= dt.second < 60
    && 0 <= dt.microsecond < 1000000
  }

  /** `a` falls in an earlier second than `b` (microseconds ignored). */
  predicate EarlierSecond(a: DateTime, b: DateTime)
  {
    || a.year < b.year
    || (a.year == b.year && a.month < b.month)
    || (a.year == b.year && a.month == b.month && a.day < b.day)
    || (a.year == b.year && a.month == b.month && a.day == b.day && a.hour < b.hour)
    || (a.year == b.year && a.month == b.month && a.day == b.day && a.hour == b.hour
        && a.minute < b.minute)
    || (a.year == b.year && a.month == b.month && a.day == b.day && a.hour == b.hour
        && a.minute == b.minute && a.second < b.second)
  }

  predicate SameSecond(a: DateTime, b: DateTime)
  {
    && a.year == b.year && a.month == b.month && a.day == b.day
    && a.hour == b.hour && a.minute == b.minute && a.second == b.second
  }

  /** Chronological order of two `datetime` values, as Python's `<` compares them. */
  predicate Before(a: DateTime, b: DateTime)
  {
    EarlierSecond(a, b) || (SameSecond(a, b) && a.microsecond < b.microsecond)
  }

  function Pow10(w: nat): (p: nat)
    ensures p > 0
  {
    if w == 0 then 1 else 10 * Pow10(w - 1)
  }

  function DigitChar(d: int): (c: char)
    requires 0 <= d < 10
  {
    ('0' as int + d) as char
  }

  /** `'%0*d' % (width, n)` for `n < 10^width`: n in decimal, zero-padded to `width` digits. */
  function Digits(n: nat, width: nat): (r: string)
    ensures |r| == width
    ensures forall i :: 0 <= i < width ==> '0' <= r[i] <= '9'
  {
    if width == 0 then ""
    else Digits(n / 10, width - 1) + [DigitChar(n % 10)]
  }

  /**
    `dt.isoformat(timespec='seconds')` for a naive datetime:
    YYYY-MM-DDTHH:MM:SS (ISO 8601 extended format, complete date and time of day).
  */
  function IsoFormat(dt: DateTime): (r: string)
    requires Valid(dt)
  {
    Digits(dt.year, 4) + ("-" + (Digits(dt.month, 2) + ("-" + (Digits(dt.day, 2)
      + ("T" + (Digits(dt.hour, 2) + (":" + (Digits(dt.minute, 2)
      + (":" + Digits(dt.second, 2))))))))))
  }

  /** `s.replace(from, to)` for one-character `from` and `to`. */
  function Replace(s: string, from: char, to: char): (r: string)
    ensures |r| == |s|
    ensures forall i :: 0 <= i < |s| ==> r[i] == (if s[i] == from then to else s[i])
  {
    if |s| == 0 then ""
    else [if s[0] == from then to else s[0]] + Replace(s[1..], from, to)
  }

  const SUFFIX: string := "_walk_forward_results.csv"

  /** `datetime.now().isoformat(timespec='seconds').replace(":", "-")` */
  function Timestamp(now: DateTime): (stamp: string)
    requires Valid(now)
  {
    Replace(IsoFormat(now), ':', '-')
  }

  /** The file name `save_walk_forward_results` writes for a save at time `now`. */
  function ResultFileName(now: DateTime): (name: string)
    requires Valid(now)
    ensures ':' !in name
    ensures Matches(name)
    ensures |name| == 19 + |SUFFIX|
  {
    var stamp := Timestamp(now);
    assert stamp[0] == IsoFormat(now)[0] == Digits(now.year, 4)[0];
    assert (stamp + SUFFIX)[|stamp|..] == SUFFIX;
    stamp + SUFFIX
  }

  /** The timestamp with its separators spelled out, most significant field first. */
  function SortableForm(dt: DateTime): (form: string)
    requires Valid(dt)
  {
    Digits(dt.year, 4) + ("-" + (Digits(dt.month, 2) + ("-" + (Digits(dt.day, 2)
      + ("T" + TimeOfDay(dt))))))
  }

  /** HH-MM-SS, the time-of-day part of the sortable form. */
  function TimeOfDay(dt: DateTime): (hms: string)
    requires Valid(dt)
  {
    Digits(dt.hour, 2) + ("-" + (Digits(dt.minute, 2) + ("-" + Digits(dt.second, 2))))
  }

  /** Replacing the colons of the ISO 8601 text gives the sortable form. */
  lemma TimestampIsSortableForm(dt: DateTime)
    requires Valid(dt)
    ensures Timestamp(dt) == SortableForm(dt)
  {
  }

  lemma DigitCharOrder(d: int, e: int)
    requires 0 <= d < 10 && 0 <= e < 10
    ensures DigitChar(d) < DigitChar(e) <==> d < e
    ensures DigitChar(d) == DigitChar(e) <==> d == e
  {
  }

  /** Zero-padded numerals of one width compare as strings the way the numbers compare. */
  lemma {:induction false} DigitsOrder(x: nat, y: nat, w: nat)
    requires x < Pow10(w) && y < Pow10(w)
    ensures LexOrder.Less(Digits(x, w), Digits(y, w)) <==> x < y
    ensures Digits(x, w) == Digits(y, w) <==> x == y
    decreases w
  {
    if w > 0 {
      var hx, hy := Digits(x / 10, w - 1), Digits(y / 10, w - 1);
      var cx, cy := [DigitChar(x % 10)], [DigitChar(y % 10)];
      DigitsOrder(x / 10, y / 10, w - 1);
      DigitCharOrder(x % 10, y % 10);
      LexOrder.LessOfConcat(hx, cx, hy, cy);
      assert LexOrder.Less(cx, cy) <==> x % 10 < y % 10 by {
        assert cx[1..] == [] && cy[1..] == [];
        LexOrder.Irreflexive([]);
      }
      if hx + cx == hy + cy {
        assert hx == (hx + cx)[..w - 1] && hy == (hy + cy)[..w - 1];
        assert cx[0] == (hx + cx)[w - 1] && cy[0] == (hy + cy)[w - 1];
      }
    }
  }

  /** A numeral field followed by the rest: the field decides unless it ties. */
  lemma FieldThen(x: nat, y: nat, w: nat, ra: string, rb: string)
    requires x < Pow10(w) && y < Pow10(w) && |ra| == |rb|
    ensures LexOrder.Less(Digits(x, w) + ra, Digits(y, w) + rb) <==> x < y || (x == y && LexOrder.Less(ra, rb))
    ensures Digits(x, w) + ra == Digits(y, w) + rb <==> x == y && ra == rb
  {
    DigitsOrder(x, y, w);
    var dx, dy := Digits(x, w), Digits(y, w);
    LexOrder.LessOfConcat(dx, ra, dy, rb);
    LexOrder.ConcatInjective(dx, ra, dy, rb);
  }

  lemma TimeOfDayOrder(a: DateTime, b: DateTime)
    requires Valid(a) && Valid(b)
    ensures LexOrder.Less(TimeOfDay(a), TimeOfDay(b)) <==>
      a.hour < b.hour || (a.hour == b.hour && (a.minute < b.minute
        || (a.minute == b.minute && a.second < b.second)))
    ensures TimeOfDay(a) == TimeOfDay(b) <==>
      a.hour == b.hour && a.minute == b.minute && a.second == b.second
  {
    var s6a, s6b := "-" + Digits(a.second, 2), "-" + Digits(b.second, 2);
    DigitsOrder(a.second, b.second, 2);
    LexOrder.CommonPrefix("-", Digits(a.second, 2), Digits(b.second, 2));
    var s5a, s5b := Digits(a.minute, 2) + s6a, Digits(b.minute, 2) + s6b;
    FieldThen(a.minute, b.minute, 2, s6a, s6b);
    var s4a, s4b := "-" + s5a, "-" + s5b;
    LexOrder.CommonPrefix("-", s5a, s5b);
    FieldThen(a.hour, b.hour, 2, s4a, s4b);
  }

  /** The sortable form orders timestamps chronologically, to the second. */
  lemma SortableFormOrder(a: DateTime, b: DateTime)
    requires Valid(a) && Valid(b)
    ensures LexOrder.Less(SortableForm(a), SortableForm(b)) <==> EarlierSecond(a, b)
    ensures SortableForm(a) == SortableForm(b) <==> SameSecond(a, b)
  {
    TimeOfDayOrder(a, b);
    var s2a, s2b := "T" + TimeOfDay(a), "T" + TimeOfDay(b);
    LexOrder.CommonPrefix("T", TimeOfDay(a), TimeOfDay(b));
    var s1a, s1b := Digits(a.day, 2) + s2a, Digits(b.day, 2) + s2b;
    FieldThen(a.day, b.day, 2, s2a, s2b);
    var t1a, t1b := "-" + s1a, "-" + s1b;
    LexOrder.CommonPrefix("-", s1a, s1b);
    var t2a, t2b := Digits(a.month, 2) + t1a, Digits(b.month, 2) + t1b;
    FieldThen(a.month, b.month, 2, t1a, t1b);
    var t3a, t3b := "-" + t2a, "-" + t2b;
    LexOrder.CommonPrefix("-", t2a, t2b);
    FieldThen(a.year, b.year, 4, t3a, t3b);
  }

  /**
    Result file names sort as their save times do, to the second; two saves
    within the same second get the same name.
  */
  lemma NameOrderIsChronological(a: DateTime, b: DateTime)
    requires Valid(a) && Valid(b)
    ensures LexOrder.Less(ResultFileName(a), ResultFileName(b)) <==> EarlierSecond(a, b)
    ensures ResultFileName(a) == ResultFileName(b) <==> SameSecond(a, b)
  {
    TimestampIsSortableForm(a);
    TimestampIsSortableForm(b);
    SortableFormOrder(a, b);
    var sa, sb := Timestamp(a), Timestamp(b);
    LexOrder.LessOfConcat(sa, SUFFIX, sb, SUFFIX);
    LexOrder.Irreflexive(SUFFIX);
    if sa + SUFFIX == sb + SUFFIX {
      assert sa == (sa + SUFFIX)[..19] && sb == (sb + SUFFIX)[..19];
    }
  }

  /** A later save never gets a name that sorts before an earlier save's. */
  lemma LaterSaveSortsLast(a: DateTime, b: DateTime)
    requires Valid(a) && Valid(b)
    requires Before(a, b)
    ensures LexOrder.LessEq(ResultFileName(a), ResultFileName(b))
  {
    NameOrderIsChronological(a, b);
  }

  /**
    `glob` of `*_walk_forward_results.csv` on one directory entry: the name ends
    in the suffix, and the leading `*` does not match a name that starts with '.'.
  */
  predicate Matches(name: string)
  {
    && |name| >= |SUFFIX|
    && name[|name| - |SUFFIX|..] == SUFFIX
    && name[0] != '.'
  }

  /** What `os.path.join(dir, name)` puts in front of a relative `name` (POSIX). */
  function JoinPrefix(dir: string): (prefix: string)
  {
    if |dir| == 0 || dir[|dir| - 1] == '/' then dir else dir + "/"
  }

  function Join(dir: string, name: string): (path: string)
  {
    JoinPrefix(dir) + name
  }

  /** The paths `glob.glob(os.path.join(dir, pattern))` returns for a listing of `dir`. */
  function Glob(dir: string, listing: seq<string>): (paths: seq<string>)
    ensures forall p :: p in paths <==> exists n :: n in listing && Matches(n) && p == Join(dir, n)
  {
    if |listing| == 0 then []
    else
      var rest := Glob(dir, listing[1..]);
      assert listing == [listing[0]] + listing[1..];
      if Matches(listing[0]) then [Join(dir, listing[0])] + rest else rest
  }

  datatype LoadError = FileNotFound

  /**
    The file `load_latest_wfv_results` reads, given the entry names of the
    results directory `dir`: the last of the sorted matching paths, or
    FileNotFoundError when nothing matches.
  */
  function LoadLatest(dir: string, listing: seq<string>): (r: Result<string, LoadError>)
    ensures r.Failure? <==> forall n :: n in listing ==> !Matches(n)
    ensures r.Success? ==> exists n :: n in listing && Matches(n) && r.value == Join(dir, n)
    ensures r.Success? ==>
      forall n :: n in listing && Matches(n) ==> LexOrder.LessEq(Join(dir, n), r.value)
  {
    var paths := Glob(dir, listing);
    var sorted := LexOrder.Sort(paths);
    assert forall p :: p in sorted <==> p in paths by {
      forall p ensures p in sorted <==> p in paths {
        assert p in sorted <==> p in multiset(sorted);
      }
    }
    assert forall n :: n in listing && Matches(n) ==> Join(dir, n) in sorted by {
      forall n | n in listing && Matches(n) ensures Join(dir, n) in sorted {
        assert Join(dir, n) in paths;
      }
    }
    if |sorted| == 0 then
      Failure(FileNotFound)
    else
      var latest := sorted[|sorted| - 1];
      assert latest in paths;
      LexOrder.LastIsGreatest(sorted);
      assert forall n :: n in listing && Matches(n) ==> LexOrder.LessEq(Join(dir, n), latest) by {
        forall n | n in listing && Matches(n) ensures LexOrder.LessEq(Join(dir, n), latest) {
          assert Join(dir, n) in sorted;
        }
      }
      Success(latest)
  }

  /** Paths in one directory sort as their entry names do. */
  lemma JoinOrder(dir: string, a: string, b: string)
    ensures LexOrder.Less(Join(dir, a), Join(dir, b)) <==> LexOrder.Less(a, b)
    ensures Join(dir, a) == Join(dir, b) <==> a == b
  {
    LexOrder.CommonPrefix(JoinPrefix(dir), a, b);
  }

  /**
    When the matching entries of the results directory are exactly the files
    saved at the times in `saves`, the loader picks the file of the latest
    save (to the second).
  */
  lemma LatestIsMostRecentSave(dir: string, listing: seq<string>, saves: seq<DateTime>, k: nat)
    requires k < |saves|
    requires forall j :: 0 <= j < |saves| ==> Valid(saves[j])
    requires forall j :: 0 <= j < |saves| ==> ResultFileName(saves[j]) in listing
    requires forall n :: n in listing && Matches(n) ==>
      exists j :: 0 <= j < |saves| && n == ResultFileName(saves[j])
    requires forall j :: 0 <= j < |saves| ==> !EarlierSecond(saves[k], saves[j])
    ensures LoadLatest(dir, listing) == Success(Join(dir, ResultFileName(saves[k])))
  {
    var newest := ResultFileName(saves[k]);
    var r := LoadLatest(dir, listing);
    assert newest in listing && Matches(newest);
    var n :| n in listing && Matches(n) && r.value == Join(dir, n);
    var j :| 0 <= j < |saves| && n == ResultFileName(saves[j]);
    JoinOrder(dir, newest, n);
    NameOrderIsChronological(saves[k], saves[j]);
  }
}
