/** Local-clock arithmetic behind the `time_between` and `day_of_week` operators. */
module Clock {
  import opened Text

  const DAY: int := 1440

  /** Minutes since the UNIX epoch, from epoch seconds. */
  function EpochMinutes(secs: nat): nat { secs / 60 }

  /** Minutes since UTC midnight, from epoch seconds. */
  function UtcMinutes(secs: nat): nat { (secs % 86400) / 60 }

  /** Local day of week: 0 = Sunday. The epoch was a Thursday. */
  function Weekday(epochMin: int, offset: int): int { ((epochMin + offset) / DAY + 4) % 7 }

  function LocalMinute(nowUtc: int, offset: int): int { (nowUtc + offset) % DAY }

  predicate InWindow(nowUtc: int, start: int, end: int, offset: int) {
    var local := LocalMinute(nowUtc, offset);
    if start <= end then start <= local <= end else local >= start || local <= end
  }

  // ── One clock ──────────────────────────────────────────────────────────────

  lemma ModShift(x: int, q: int)
    ensures (x + DAY * q) % DAY == x % DAY
  {
    var r, k := x % DAY, x / DAY;
    assert x + DAY * q == DAY * (k + q) + r;
  }

  /** The two candidates, epoch minutes and UTC minutes, name the same moment. */
  lemma SameMoment(secs: nat)
    ensures UtcMinutes(secs) == EpochMinutes(secs) % DAY
  {
    var d, r := secs / 86400, secs % 86400;
    assert secs == 60 * (DAY * d) + r;
    assert secs / 60 == DAY * d + r / 60;
    ModShift(r / 60, d);
  }

  lemma LocalOfEpoch(epochMin: int, offset: int)
    ensures LocalMinute(epochMin % DAY, offset) == (epochMin + offset) % DAY
  {
    var q := epochMin / DAY;
    assert epochMin + offset == (epochMin % DAY + offset) + DAY * q;
    ModShift(epochMin % DAY + offset, q);
  }

  /**
   The day operator and the time operator read one local clock: the minute that the
   time window sees advances by one, and the weekday moves on, by one, exactly when
   that minute wraps to midnight.
   */
  lemma OneClock(epochMin: int, offset: int)
    ensures var before := LocalMinute(epochMin % DAY, offset);
            var after := LocalMinute((epochMin + 1) % DAY, offset);
            && after == (before + 1) % DAY
            && (after == 0 <==> Weekday(epochMin + 1, offset) == (Weekday(epochMin, offset) + 1) % 7)
            && (after != 0 <==> Weekday(epochMin + 1, offset) == Weekday(epochMin, offset))
  {
    LocalOfEpoch(epochMin, offset);
    LocalOfEpoch(epochMin + 1, offset);
    var t := epochMin + offset;
    assert (t + 1) / DAY == (if (t + 1) % DAY == 0 then t / DAY + 1 else t / DAY);
  }

  predicate MinutesOn(start: int, k: int, nowUtc: int, offset: int) { (start + k - (nowUtc + offset)) % DAY == 0 }

  lemma MinuteAhead(start: int, k: int, nowUtc: int, offset: int, local: int)
    requires 0 <= start < DAY && 0 <= k < DAY && local == (nowUtc + offset) % DAY
    ensures MinutesOn(start, k, nowUtc, offset) <==> k == (if local >= start then local - start else local - start + DAY)
  {
    var at := nowUtc + offset;
    var q, d := at / DAY, start + k - local;
    assert start + k - at == d + DAY * -q;
    ModShift(d, -q);
    assert -DAY < d < 2 * DAY;
    assert d % DAY == 0 <==> d == 0 || d == DAY;
  }

  /** The window goes forward from `start` to `end`, past midnight if it has to, on the client's local clock. */
  lemma WindowMeans(nowUtc: int, start: int, end: int, offset: int)
    requires 0 <= start < DAY && 0 <= end < DAY
    ensures InWindow(nowUtc, start, end, offset) <==> exists k :: 0 <= k <= (end - start) % DAY && MinutesOn(start, k, nowUtc, offset)
  {
    var local := LocalMinute(nowUtc, offset);
    var ahead, length := if local >= start then local - start else local - start + DAY, if end >= start then end - start else end - start + DAY;
    assert length == (end - start) % DAY;
    assert InWindow(nowUtc, start, end, offset) <==> ahead <= length;
    MinuteAhead(start, ahead, nowUtc, offset, local);
    assert MinutesOn(start, ahead, nowUtc, offset);
    if k :| 0 <= k <= (end - start) % DAY && MinutesOn(start, k, nowUtc, offset) {
      MinuteAhead(start, k, nowUtc, offset, local);
    }
  }

  /** A thousand four hundred and forty minutes to a day, and day 0 of the epoch was a Thursday. */
  lemma WeekdayOf(day: int, minute: int, offset: int)
    requires 0 <= minute < DAY
    ensures Weekday(DAY * day + minute - offset, offset) == (4 + day) % 7
  {
    assert (DAY * day + minute) / DAY == day;
  }

  // ── The size of a window ───────────────────────────────────────────────────

  /** How many of the `n` UTC minutes from `from` on the window admits. */
  function Admitted(from: int, n: nat, start: int, end: int, offset: int): nat {
    if n == 0 then 0
    else Admitted(from, n - 1, start, end, offset) + (if InWindow(from + n - 1, start, end, offset) then 1 else 0)
  }

  lemma {:induction false} AdmittedFirst(from: int, n: nat, start: int, end: int, offset: int)
    requires n > 0
    ensures Admitted(from, n, start, end, offset)
         == (if InWindow(from, start, end, offset) then 1 else 0) + Admitted(from + 1, n - 1, start, end, offset)
  {
    if n > 1 { AdmittedFirst(from, n - 1, start, end, offset); }
  }

  /** A whole day admits as many minutes wherever it begins. */
  lemma {:induction false} Rotate(from: int, k: nat, start: int, end: int, offset: int)
    ensures Admitted(from, 1440, start, end, offset) == Admitted(from + k, 1440, start, end, offset)
  {
    if k > 0 {
      Rotate(from, k - 1, start, end, offset);
      var f := from + k - 1;
      AdmittedFirst(f, 1440, start, end, offset);
      assert Admitted(f + 1, 1440, start, end, offset)
          == Admitted(f + 1, 1439, start, end, offset) + (if InWindow(f + 1440, start, end, offset) then 1 else 0);
      ModShift(f + offset, 1);
      assert f + 1440 + offset == (f + offset) + DAY * 1;
    }
  }

  /** Moving the start of counting and moving the time zone are the same thing. */
  lemma {:induction false} OffsetShifts(from: int, n: nat, start: int, end: int, offset: int)
    ensures Admitted(from, n, start, end, offset) == Admitted(from + offset, n, start, end, 0)
  {
    if n > 0 { OffsetShifts(from, n - 1, start, end, offset); }
  }

  lemma {:induction false} AdmittedUtc(n: nat, start: int, end: int)
    requires 0 <= start < DAY && 0 <= end < DAY && n <= 1440
    ensures Admitted(0, n, start, end, 0)
         == if start <= end
            then (if n <= start then 0 else if n <= end + 1 then n - start else end + 1 - start)
            else (if n <= end + 1 then n else if n <= start then end + 1 else end + 1 + n - start)
  {
    if n > 0 { AdmittedUtc(n - 1, start, end); }
  }

  /** Over a day, in every time zone, a window admits its own length in minutes, both ends included. */
  lemma WindowSize(start: int, end: int, offset: int)
    requires 0 <= start < DAY && 0 <= end < DAY
    ensures Admitted(0, 1440, start, end, offset) == (end - start) % DAY + 1
  {
    OffsetShifts(0, 1440, start, end, offset);
    AdmittedUtc(1440, start, end);
    if offset >= 0 {
      Rotate(0, offset, start, end, 0);
    } else {
      Rotate(offset, -offset, start, end, 0);
    }
  }

  // ── Day lists ──────────────────────────────────────────────────────────────

  function DayName(s: string): (r: Option<int>)
    ensures r.Some? ==> 0 <= r.value < 7
  {
    var d := Lower(Trim(s));
    if d == "sun" || d == "sunday" then Some(0)
    else if d == "mon" || d == "monday" then Some(1)
    else if d == "tue" || d == "tues" || d == "tuesday" then Some(2)
    else if d == "wed" || d == "weds" || d == "wednesday" then Some(3)
    else if d == "thu" || d == "thur" || d == "thurs" || d == "thursday" then Some(4)
    else if d == "fri" || d == "friday" then Some(5)
    else if d == "sat" || d == "saturday" then Some(6)
    else None
  }

  /** How many days after `a` the day `d` comes round. */
  function Ahead(a: int, d: int): int { if d >= a then d - a else d - a + 7 }

  /** The days met going forward from `a` until `b`, wrapping past Saturday. */
  function Cyclic(a: int, b: int): set<int> {
    set d | 0 <= d < 7 && Ahead(a, d) <= Ahead(a, b)
  }

  predicate DaysOn(a: int, k: int, d: int) { (a + k - d) % 7 == 0 }

  /** A range of days goes forward from its first day, past Saturday if it has to. */
  lemma CyclicMeans(a: int, b: int, d: int)
    requires 0 <= a < 7 && 0 <= b < 7
    ensures d in Cyclic(a, b) <==> 0 <= d < 7 && exists k :: 0 <= k <= (b - a) % 7 && DaysOn(a, k, d)
  {
    assert Ahead(a, b) == (b - a) % 7;
    assert DaysOn(a, Ahead(a, d), d);
    if k :| 0 <= d < 7 && 0 <= k <= (b - a) % 7 && DaysOn(a, k, d) { assert k == Ahead(a, d); }
  }

  /** The days one token of a list names; nothing if it is malformed. */
  function TokenDays(tok: string): Option<set<int>> {
    if Trim(tok) == "" then Some({})
    else match SplitOnce(Trim(tok), '-')
      case Some((a, b)) =>
        if DayName(a).Some? && DayName(b).Some? then Some(Cyclic(DayName(a).value, DayName(b).value)) else None
      case None =>
        if DayName(Trim(tok)).Some? then Some({DayName(Trim(tok)).value}) else None
  }

  /** The day-range loop: it ends, having added exactly the cyclic interval. */
  method AddRange(mask: set<int>, a: int, b: int) returns (res: set<int>)
    requires 0 <= a < 7 && 0 <= b < 7
    ensures res == mask + Cyclic(a, b)
  {
    res := mask;
    var d := a;
    while true
      invariant 0 <= d < 7 && Ahead(a, d) <= Ahead(a, b)
      invariant res == mask + (set x | 0 <= x < 7 && Ahead(a, x) < Ahead(a, d))
      decreases Ahead(a, b) - Ahead(a, d)
    {
      res := res + {d};
      if d == b { break; }
      d := (d + 1) % 7;
    }
  }

  /** One round of the token loop. */
  method AddToken(mask: set<int>, text: string) returns (res: Option<set<int>>)
    ensures res.None? <==> TokenDays(text).None?
    ensures res.Some? ==> res.value == mask + TokenDays(text).value
  {
    var tok := Trim(text);
    if tok == "" { return Some(mask); }
    match SplitOnce(tok, '-') {
      case Some((a, b)) =>
        var from, to := DayName(a), DayName(b);
        if from.None? || to.None? { return None; }
        var range := AddRange(mask, from.value, to.value);
        return Some(range);
      case None =>
        var day := DayName(tok);
        if day.None? { return None; }
        return Some(mask + {day.value});
    }
  }

  predicate Malformed(toks: seq<string>) {
    exists i :: 0 <= i < |toks| && TokenDays(toks[i]).None?
  }

  predicate Named(toks: seq<string>, d: int) {
    exists i :: 0 <= i < |toks| && TokenDays(toks[i]).Some? && d in TokenDays(toks[i]).value
  }

  /** The days a list names; nothing if a token is malformed or no day is named. */
  function DayMask(s: string): Option<set<int>> {
    var toks := Split(s, ',');
    var days := set d | 0 <= d < 7 && Named(toks, d);
    if Malformed(toks) || days == {} then None else Some(days)
  }

  predicate NamedBefore(toks: seq<string>, n: nat, d: int) {
    exists j :: 0 <= j < n <= |toks| && TokenDays(toks[j]).Some? && d in TokenDays(toks[j]).value
  }

  /** The mask holds exactly the days of the first `n` tokens, all of them well formed. */
  ghost predicate Gathered(toks: seq<string>, n: nat, mask: set<int>) {
    && n <= |toks|
    && (forall j :: 0 <= j < n ==> TokenDays(toks[j]).Some? && TokenDays(toks[j]).value <= mask)
    && (forall d :: d in mask ==> NamedBefore(toks, n, d))
  }

  lemma GatherToken(toks: seq<string>, i: nat, mask: set<int>, more: set<int>)
    requires i < |toks| && Gathered(toks, i, mask)
    requires TokenDays(toks[i]).Some? && more == mask + TokenDays(toks[i]).value
    ensures Gathered(toks, i + 1, more)
  {
    forall d | d in more ensures NamedBefore(toks, i + 1, d) {
      if d in mask { assert NamedBefore(toks, i, d); }
    }
  }

  lemma TokenInWeek(tok: string, d: int)
    requires TokenDays(tok).Some? && d in TokenDays(tok).value
    ensures 0 <= d < 7
  {
  }

  lemma MaskIs(toks: seq<string>, mask: set<int>)
    requires Gathered(toks, |toks|, mask)
    ensures !Malformed(toks) && mask == set d | 0 <= d < 7 && Named(toks, d)
  {
    forall d | d in mask ensures 0 <= d < 7 && Named(toks, d) {
      var j :| 0 <= j < |toks| && TokenDays(toks[j]).Some? && d in TokenDays(toks[j]).value;
      TokenInWeek(toks[j], d);
    }
  }

  /** `parse_day_mask`; the bit mask is the set of its set bits. */
  method ParseDayMask(s: string) returns (r: Option<set<int>>)
    ensures r == DayMask(s)
  {
    var toks := Split(s, ',');
    var mask: set<int> := {};
    for i := 0 to |toks|
      invariant Gathered(toks, i, mask)
    {
      var added := AddToken(mask, toks[i]);
      if added.None? {
        assert Malformed(toks);
        return None;
      }
      GatherToken(toks, i, mask, added.value);
      mask := added.value;
    }
    MaskIs(toks, mask);
    if mask != {} { return Some(mask); }
    return None;
  }

  /** What a mask means for a day: some token of the list names it, alone or inside a range. */
  lemma {:induction false} DayMaskMeans(s: string, d: int)
    requires DayMask(s).Some?
    ensures d in DayMask(s).value <==> Named(Split(s, ','), d)
  {
    var toks := Split(s, ',');
    if Named(toks, d) {
      var i :| 0 <= i < |toks| && TokenDays(toks[i]).Some? && d in TokenDays(toks[i]).value;
      TokenInWeek(toks[i], d);
    }
  }

  type DayOfWeek = d: int | 0 <= d < 7

  /** An item of a day list: one day, or a range going forward from one day to another. */
  datatype DayItem = One(day: DayOfWeek) | Range(from: DayOfWeek, to: DayOfWeek)

  const DAY_NAMES: seq<string> := ["sun", "mon", "tue", "wed", "thu", "fri", "sat"]

  function ItemText(x: DayItem): string {
    match x
    case One(d) => DAY_NAMES[d]
    case Range(a, b) => DAY_NAMES[a] + ['-'] + DAY_NAMES[b]
  }

  function ItemDays(x: DayItem): set<int> {
    match x case One(d) => {d} case Range(a, b) => Cyclic(a, b)
  }

  function ItemTexts(items: seq<DayItem>): (r: seq<string>)
    ensures |r| == |items| && forall i :: 0 <= i < |items| ==> r[i] == ItemText(items[i])
  {
    seq(|items|, i requires 0 <= i < |items| => ItemText(items[i]))
  }

  predicate PlainDay(s: string) { s != "" && Trimmed(s) && Free(s, '-') && Free(s, ',') }

  lemma DayNameRead(d: DayOfWeek)
    ensures PlainDay(DAY_NAMES[d]) && DayName(DAY_NAMES[d]) == Some(d)
  {
    var name := DAY_NAMES[d];
    TrimTrimmed(name);
    assert Lower(name) == name;
  }

  lemma {:induction false} RangeRead(from: string, to: string, a: DayOfWeek, b: DayOfWeek)
    requires PlainDay(from) && PlainDay(to) && DayName(from) == Some(a) && DayName(to) == Some(b)
    ensures Free(from + ['-'] + to, ',') && TokenDays(from + ['-'] + to) == Some(Cyclic(a, b))
  {
    var text := from + ['-'] + to;
    assert text[0] == from[0] && text[|text| - 1] == to[|to| - 1];
    TrimTrimmed(text);
    SplitOnceAt(from, '-', to);
  }

  lemma {:induction false} ItemRead(x: DayItem)
    ensures Free(ItemText(x), ',') && TokenDays(ItemText(x)) == Some(ItemDays(x))
  {
    match x
    case One(d) =>
      DayNameRead(d);
      TrimTrimmed(DAY_NAMES[d]);
      SplitOnceNone(DAY_NAMES[d], '-');
    case Range(a, b) =>
      DayNameRead(a);
      DayNameRead(b);
      RangeRead(DAY_NAMES[a], DAY_NAMES[b], a, b);
  }

  predicate ReadAs(texts: seq<string>, items: seq<DayItem>) {
    |texts| == |items| && forall i :: 0 <= i < |items| ==> TokenDays(texts[i]) == Some(ItemDays(items[i]))
  }

  predicate SomeItem(items: seq<DayItem>, d: int) { exists i :: 0 <= i < |items| && d in ItemDays(items[i]) }

  lemma ListNames(texts: seq<string>, items: seq<DayItem>, d: int)
    requires ReadAs(texts, items)
    ensures !Malformed(texts) && (Named(texts, d) <==> SomeItem(items, d))
  {
    if i :| 0 <= i < |items| && d in ItemDays(items[i]) {
      assert TokenDays(texts[i]).Some? && d in TokenDays(texts[i]).value;
    }
  }

  lemma ListMask(s: string, texts: seq<string>, items: seq<DayItem>, d: int)
    requires Split(s, ',') == texts && items != [] && ReadAs(texts, items)
    ensures DayMask(s).Some? && (d in DayMask(s).value <==> SomeItem(items, d))
  {
    var some: int := if items[0].One? then items[0].day else items[0].from;
    assert some in ItemDays(items[0]) && 0 <= some < 7;
    ListNames(texts, items, some);
    ListNames(texts, items, d);
    assert DayMask(s).Some?;
    DayMaskMeans(s, d);
  }

  lemma TextsRead(items: seq<DayItem>)
    requires items != []
    ensures Split(Join(ItemTexts(items), ","), ',') == ItemTexts(items) && ReadAs(ItemTexts(items), items)
  {
    var texts := ItemTexts(items);
    forall i | 0 <= i < |items| ensures Free(texts[i], ',') && TokenDays(texts[i]) == Some(ItemDays(items[i])) {
      ItemRead(items[i]);
    }
    SplitJoin(texts, ',');
  }

  /** A day list that is written out reads back as the days its items stand for, ranges going round the week. */
  lemma DayListRead(items: seq<DayItem>, d: int)
    requires items != []
    ensures DayMask(Join(ItemTexts(items), ",")).Some?
    ensures d in DayMask(Join(ItemTexts(items), ",")).value <==> exists i :: 0 <= i < |items| && d in ItemDays(items[i])
  {
    TextsRead(items);
    ListMask(Join(ItemTexts(items), ","), ItemTexts(items), items, d);
  }

  // ── Time-zone offsets ──────────────────────────────────────────────────────

  const I16_MAX: nat := 0x7FFF

  function Wrap16(x: int): int { (x + 0x8000) % 0x1_0000 - 0x8000 }

  /** `parse_hhmm`: hours and minutes around `:`, or around `.`. */
  function HhmmParts(s: string): Option<(string, string)> {
    match SplitOnce(s, ':') case Some(p) => Some(p) case None => SplitOnce(s, '.')
  }

  function ClockMinutes(hours: Option<nat>, minutes: Option<nat>): Option<int> {
    match (hours, minutes)
    case (Some(h), Some(m)) => if h <= 23 && m <= 59 then Some(h * 60 + m) else None
    case _ => None
  }

  function ParseHhmm(text: string): Option<int> {
    match HhmmParts(Trim(text))
    case None => None
    case Some((h, m)) => ClockMinutes(ParseUnsigned(Trim(h), 0xFFFF), ParseUnsigned(Trim(m), 0xFFFF))
  }

  predicate Digits(s: string) { s != "" && AllDigits(s) }

  /** Digits that say a number of at most 16 bits. */
  predicate Says(s: string, n: nat) { Digits(s) && Value(s) == n && n <= 0xFFFF }

  /** A time of day: hours, a colon or a full stop, minutes. */
  predicate TimeText(s: string, hs: string, ms: string) { s == hs + [':'] + ms || s == hs + ['.'] + ms }

  predicate NumberText(s: string) {
    s != "" && !IsSpace(s[0]) && !IsSpace(s[|s| - 1]) && Free(s, ':') && Free(s, '.') && Free(s, '-')
  }

  lemma SaysNumber(s: string, n: nat)
    requires Says(s, n)
    ensures NumberText(s) && ParseUnsigned(Trim(s), 0xFFFF) == Some(n)
  {
    assert IsDigit(s[0]) && IsDigit(s[|s| - 1]);
    TrimTrimmed(s);
  }

  lemma {:induction false} TimeParts(s: string, hs: string, ms: string)
    requires TimeText(s, hs, ms) && NumberText(hs) && NumberText(ms)
    ensures Free(s, '-') && Trim(s) == s && HhmmParts(s) == Some((hs, ms))
  {
    assert s[0] == hs[0] && s[|s| - 1] == ms[|ms| - 1];
    TrimTrimmed(s);
    if s == hs + [':'] + ms {
      SplitOnceAt(hs, ':', ms);
    } else {
      SplitOnceNone(s, ':');
      SplitOnceAt(hs, '.', ms);
    }
  }

  lemma PartsRead(s: string, hs: string, ms: string, h: nat, m: nat)
    requires Trim(s) == s && HhmmParts(s) == Some((hs, ms))
    requires ParseUnsigned(Trim(hs), 0xFFFF) == Some(h) && ParseUnsigned(Trim(ms), 0xFFFF) == Some(m)
    ensures ParseHhmm(s) == ClockMinutes(Some(h), Some(m))
  {
  }

  function Time(h: nat, m: nat): Option<int> { if h <= 23 && m <= 59 then Some(60 * h + m) else None }

  lemma {:induction false} HhmmRead(s: string, hs: string, h: nat, ms: string, m: nat)
    requires TimeText(s, hs, ms) && Says(hs, h) && Says(ms, m)
    ensures ParseHhmm(s) == Time(h, m) && Free(s, '-')
  {
    SaysNumber(hs, h);
    SaysNumber(ms, m);
    TimeParts(s, hs, ms);
    PartsRead(s, hs, ms, h, m);
  }

  function ParseTimeWindow(s: string): Option<(int, int)> {
    match SplitOnce(s, '-')
    case None => None
    case Some((a, b)) =>
      if ParseHhmm(a).Some? && ParseHhmm(b).Some? then Some((ParseHhmm(a).value, ParseHhmm(b).value)) else None
  }

  lemma WindowEnds(a: string, b: string)
    requires Free(a, '-')
    ensures ParseTimeWindow(a + ['-'] + b)
         == (if ParseHhmm(a).Some? && ParseHhmm(b).Some? then Some((ParseHhmm(a).value, ParseHhmm(b).value)) else None)
  {
    SplitOnceAt(a, '-', b);
  }

  /** A window that is written out is read as its start and its end, in minutes, if both are times of day. */
  lemma {:induction false} WindowRead(a: string, h1: nat, m1: nat, b: string, h2: nat, m2: nat, digits: seq<string>)
    requires |digits| == 4 && Says(digits[0], h1) && Says(digits[1], m1) && Says(digits[2], h2) && Says(digits[3], m2)
    requires TimeText(a, digits[0], digits[1]) && TimeText(b, digits[2], digits[3])
    ensures ParseTimeWindow(a + ['-'] + b)
         == (if h1 <= 23 && m1 <= 59 && h2 <= 23 && m2 <= 59 then Some((60 * h1 + m1, 60 * h2 + m2)) else None)
  {
    HhmmRead(a, digits[0], h1, digits[1], m1);
    HhmmRead(b, digits[2], h2, digits[3], m2);
    WindowEnds(a, b);
  }

  lemma HhmmInDay(s: string)
    requires ParseHhmm(s).Some?
    ensures 0 <= ParseHhmm(s).value < DAY
  {
  }

  lemma WindowInDay(s: string, start: int, end: int)
    requires ParseTimeWindow(s) == Some((start, end))
    ensures 0 <= start < DAY && 0 <= end < DAY
  {
    var (a, b) := SplitOnce(s, '-').value;
    HhmmInDay(a);
    HhmmInDay(b);
  }

  /** A parsed window lies within the day, so its size is given by `WindowSize` in every time zone. */
  lemma ParsedWindowSize(s: string, start: int, end: int, offset: int)
    requires ParseTimeWindow(s) == Some((start, end))
    ensures Admitted(0, 1440, start, end, offset) == (end - start) % DAY + 1
  {
    WindowInDay(s, start, end);
    WindowSize(start, end, offset);
  }

  function StripUtc(s: string): string {
    if |s| >= 3 && (s[..3] == "UTC" || s[..3] == "utc") then s[3..] else s
  }

  /** `sign * (h * 60 + m)` in 16 bits. */
  function Offset(sign: int, h: int, m: int): int {
    var minutes := Wrap16(Wrap16(h * 60) + m);
    Wrap16(if sign < 0 then -minutes else minutes)
  }

  function HoursMinutes(rest: string): Option<(int, int)> {
    var (h, m) := match SplitOnce(rest, ':') case Some((a, b)) => (a, b) case None => (rest, "0");
    match (ParseSigned(Trim(h), I16_MAX), ParseSigned(Trim(m), I16_MAX))
    case (Some(hv), Some(mv)) => Some((hv, mv))
    case _ => None
  }

  /** `parse_tz_offset`: hours and minutes are read as signed 16-bit numbers and bounded only from above. */
  function ParseTzOffset(text: string): Option<int> {
    var s := Trim(StripUtc(Trim(text)));
    if s == "" then Some(0)
    else
      var sign := if s[0] == '-' then -1 else 1;
      var rest := if s[0] == '-' || s[0] == '+' then s[1..] else s;
      match HoursMinutes(rest)
      case None => None
      case Some((h, m)) => if h <= 14 && m <= 59 then Some(Offset(sign, h, m)) else None
  }

  lemma DigitsRead(s: string)
    requires Digits(s) && Value(s) <= I16_MAX
    ensures Trimmed(s) && Free(s, ':') && ParseSigned(Trim(s), I16_MAX) == Some(Value(s))
  {
    assert IsDigit(s[0]) && IsDigit(s[|s| - 1]);
    TrimTrimmed(s);
  }

  lemma HoursMinutesRead(hs: string, ms: string)
    requires Digits(hs) && Digits(ms) && Value(hs) <= 14 && Value(ms) <= 59
    ensures HoursMinutes(hs + [':'] + ms) == Some((Value(hs), Value(ms)))
  {
    DigitsRead(hs);
    DigitsRead(ms);
    SplitOnceAt(hs, ':', ms);
  }

  /** A text with a sign in front is read by what follows the sign. */
  lemma SignedOffset(text: string, h: int, m: int)
    requires |text| > 1 && Trimmed(text) && (text[0] == '-' || text[0] == '+')
    requires HoursMinutes(text[1..]) == Some((h, m)) && h <= 14 && m <= 59
    ensures ParseTzOffset(text) == Some(Offset(if text[0] == '-' then -1 else 1, h, m))
  {
    TrimTrimmed(text);
    if |text| >= 3 { assert text[..3][0] == text[0] && "UTC"[0] == 'U' && "utc"[0] == 'u'; }
  }

  lemma SignedRest(sign: char, rest: string, h: int, m: int)
    requires sign == '-' || sign == '+'
    requires rest != "" && !IsSpace(rest[|rest| - 1]) && HoursMinutes(rest) == Some((h, m)) && h <= 14 && m <= 59
    ensures ParseTzOffset([sign] + rest) == Some(Offset(if sign == '-' then -1 else 1, h, m))
  {
    var text := [sign] + rest;
    assert text[|text| - 1] == rest[|rest| - 1] && text[1..] == rest;
    SignedOffset(text, h, m);
  }

  lemma WrapSame(x: int, q: int)
    ensures Wrap16(x + 0x1_0000 * q) == Wrap16(x)
  {
    var r, k := (x + 0x8000) % 0x1_0000, (x + 0x8000) / 0x1_0000;
    assert x + 0x1_0000 * q + 0x8000 == 0x1_0000 * (k + q) + r;
  }

  /** The offset is always the stated one, reduced to 16 bits. */
  lemma TzReduced(sign: int, h: int, m: int)
    requires sign == 1 || sign == -1
    ensures Offset(sign, h, m) == Wrap16(sign * (60 * h + m))
  {
    var x := Wrap16(h * 60);
    var y := Wrap16(x + m);
    var p, q := (h * 60 + 0x8000) / 0x1_0000, (x + m + 0x8000) / 0x1_0000;
    assert y == h * 60 + m - 0x1_0000 * (p + q);
    WrapSame(sign * (60 * h + m), -sign * (p + q));
    assert sign * y == sign * (60 * h + m) + 0x1_0000 * (-sign * (p + q));
  }

  lemma WrapFits(x: int)
    ensures Wrap16(x) == x <==> -0x8000 <= x <= 0x7FFF
  {
  }

  /** Whatever signs were read, the offset is the stated one exactly when that fits 16 bits. */
  lemma TzExact(sign: int, h: int, m: int)
    requires (sign == 1 || sign == -1) && h <= 14 && m <= 59
    ensures Offset(sign, h, m) == sign * (60 * h + m)
       <==> -0x8000 <= sign * (60 * h + m) <= 0x7FFF
  {
    TzReduced(sign, h, m);
    WrapFits(sign * (60 * h + m));
  }

  /** A documented offset, `+HH:MM` or `-HH:MM` with any zero padding, is read as the minutes it states. */
  lemma TzRead(minus: bool, hs: string, ms: string, h: nat, m: nat)
    requires Digits(hs) && Digits(ms) && Value(hs) == h <= 14 && Value(ms) == m <= 59
    ensures ParseTzOffset([if minus then '-' else '+'] + (hs + [':'] + ms)) == Some((if minus then -1 else 1) * (60 * h + m))
  {
    var rest := hs + [':'] + ms;
    assert rest[|rest| - 1] == ms[|ms| - 1] && IsDigit(ms[|ms| - 1]);
    HoursMinutesRead(hs, ms);
    SignedRest(if minus then '-' else '+', rest, h, m);
    TzExact(if minus then -1 else 1, h, m);
  }

  /** A second sign before the hours, as in `+-5:00`. */
  function SecondSign(hs: string): string { ['+'] + ("-" + hs + [':'] + "00") }

  lemma SmallNumbers()
    ensures Digits("5") && Digits("20") && Digits("600")
    ensures Value("5") == 5 && Value("20") == 20 && Value("600") == 600
  {
    assert "20"[..1] == "2" && "600"[..2] == "60" && "60"[..1] == "6";
    assert Value("2") == 2 && Value("6") == 6;
    assert Value("60") == 60;
  }

  lemma NegativeDigits(hs: string, h: nat)
    requires Digits(hs) && Value(hs) == h <= I16_MAX
    ensures ParseSigned(Trim("-" + hs), I16_MAX) == Some(0 - h as int)
  {
    var s := "-" + hs;
    assert IsDigit(hs[|hs| - 1]) && s[|s| - 1] == hs[|hs| - 1];
    TrimTrimmed(s);
    assert s[1..] == hs;
  }

  lemma ZeroMinutes()
    ensures ParseSigned(Trim("00"), I16_MAX) == Some(0)
  {
    TrimTrimmed("00");
    assert "00"[..1] == "0" && "0"[..0] == "";
    assert Value("0") == 0;
    assert Value("00") == 0;
  }

  lemma NegativeRead(hs: string, h: nat)
    requires Digits(hs) && Value(hs) == h <= I16_MAX
    ensures HoursMinutes("-" + hs + [':'] + "00") == Some((0 - h as int, 0))
  {
    SplitOnceAt("-" + hs, ':', "00");
    NegativeDigits(hs, h);
    ZeroMinutes();
  }

  lemma {:induction false} PlusRest(text: string, rest: string, h: int)
    requires text == ['+'] + rest && rest != "" && rest[|rest| - 1] == '0' && HoursMinutes(rest) == Some((h, 0)) && h <= 14
    ensures ParseTzOffset(text) == Some(Offset(1, h, 0))
  {
    SignedRest('+', rest, h, 0);
  }

  lemma {:induction false} TzNegative(hs: string, h: nat)
    requires Digits(hs) && Value(hs) == h <= I16_MAX
    ensures ParseTzOffset(SecondSign(hs)) == Some(Offset(1, 0 - h as int, 0))
  {
    var rest := "-" + hs + [':'] + "00";
    NegativeRead(hs, h);
    assert rest[|rest| - 1] == '0';
    PlusRest(SecondSign(hs), rest, 0 - h as int);
  }

  lemma NegativeOffsets()
    ensures Offset(1, -5, 0) == -300 && Offset(1, -20, 0) == -1200 && Offset(1, -600, 0) == 29536
  {
    TzExact(1, -5, 0);
    TzExact(1, -20, 0);
    TzReduced(1, -600, 0);
    WrapSame(29536, -1);
    WrapFits(29536);
  }

  /** A second sign, on the hours, is accepted too, turns the offset round, and escapes the bound of 14 hours. */
  lemma TzSecondSign()
    ensures ParseTzOffset(SecondSign("5")) == Some(-300)
    ensures ParseTzOffset(SecondSign("20")) == Some(-1200)
  {
    SmallNumbers();
    TzNegative("5", 5);
    TzNegative("20", 20);
    NegativeOffsets();
  }

  /** Far enough below, the 16-bit arithmetic wraps: minus 600 hours comes out as plus 492 hours and 16 minutes. */
  lemma TzWraps()
    ensures ParseTzOffset(SecondSign("600")) == Some(29536)
  {
    SmallNumbers();
    TzNegative("600", 600);
    NegativeOffsets();
  }

  lemma WrapWithin(x: int)
    ensures -899 <= Wrap16(x) <= 899 <==> (x + 899) % 0x1_0000 <= 1798
  {
  }

  lemma MirrorWithin(x: int)
    ensures (-x + 899) % 0x1_0000 <= 1798 <==> (x + 899) % 0x1_0000 <= 1798
  {
    var q, r := (x + 899) / 0x1_0000, (x + 899) % 0x1_0000;
    assert -x + 899 == 0x1_0000 * (-q) + (1798 - r);
    if r > 1798 { assert -x + 899 == 0x1_0000 * (-q - 1) + (1798 - r + 0x1_0000); }
  }

  /**
   The bound of 14 hours and 59 minutes is kept exactly when the stated minutes, which are
   bounded only from above, lie within it, or below it by a multiple of 2^16.
   */
  lemma TzWithinBound(sign: int, h: int, m: int)
    requires (sign == 1 || sign == -1) && h <= 14 && m <= 59
    ensures -899 <= Offset(sign, h, m) <= 899 <==> (60 * h + m + 899) % 0x1_0000 <= 1798
    ensures -0x8000 <= 60 * h + m ==> (-899 <= Offset(sign, h, m) <= 899 <==> -899 <= 60 * h + m)
  {
    var n := 60 * h + m;
    TzReduced(sign, h, m);
    WrapWithin(sign * n);
    if sign == -1 { MirrorWithin(n); }
    if -0x8000 <= n { assert n <= 899; }
  }
}
