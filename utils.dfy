/** The front end's small helpers in `ui/src/plugins/utils.ts`: file names
    without extension, `%`-token date formatting, a time-limited result cache
    and a trailing-edge throttle. */
module Utils {
  import opened Common

  // ---------------------------------------------------------------------------
  // extractFileNameWithoutExtension

  predicate IsSep(c: char) { c == '/' || c == '\\' }

  /** The match of `/[^\\/]+$/` as a string: the longest suffix without a
      separator (empty when there is none, which is the `null` case). */
  function TailAfterSep(s: string): (r: string)
    ensures |r| <= |s| && s[|s| - |r|..] == r
    ensures forall k | 0 <= k < |r| :: !IsSep(r[k])
    ensures |r| < |s| ==> IsSep(s[|s| - |r| - 1])
  {
    if s == [] || IsSep(s[|s| - 1]) then []
    else TailAfterSep(s[..|s| - 1]) + [s[|s| - 1]]
  }

  /** The segment after the last separator of `dir + [c] + seg` is `seg`. */
  lemma {:induction false} TailOfSegment(dir: string, c: char, seg: string)
    requires IsSep(c) && forall k | 0 <= k < |seg| :: !IsSep(seg[k])
    ensures TailAfterSep(dir + [c] + seg) == seg
    decreases |seg|
  {
    var s := dir + [c] + seg;
    if seg != [] {
      assert s[..|s| - 1] == dir + [c] + seg[..|seg| - 1];
      TailOfSegment(dir, c, seg[..|seg| - 1]);
      assert seg == seg[..|seg| - 1] + [seg[|seg| - 1]];
    } else {
      assert s[|s| - 1] == c;
    }
  }

  /** `/\.[^/.]+$/` matches at `i`: a dot followed, up to the end, by at least
      one character that is neither a dot nor a slash. */
  predicate ExtensionAt(name: string, i: int) {
    0 <= i < |name| - 1 && name[i] == '.' && forall k | i < k < |name| :: name[k] != '.' && name[k] != '/'
  }

  /** `.replace(/\.[^/.]+$/, "")`: removes the extension the pattern matches,
      if any. Only the last dot can start a match. */
  function StripExtension(name: string): (r: string)
    ensures |r| <= |name| && name[..|r|] == r
    ensures (exists i :: ExtensionAt(name, i)) ==> ExtensionAt(name, |r|)
    ensures !(exists i :: ExtensionAt(name, i)) ==> r == name
  {
    StripFrom(name, |name|)
  }

  /** Searches backwards from `j` for the dot that starts the extension;
      `name[j..]` is already known to contain no dot and no slash. */
  function StripFrom(name: string, j: nat): (r: string)
    requires j <= |name|
    requires forall k | j <= k < |name| :: name[k] != '.' && name[k] != '/'
    ensures |r| <= |name| && name[..|r|] == r
    ensures (exists i :: ExtensionAt(name, i)) ==> ExtensionAt(name, |r|)
    ensures !(exists i :: ExtensionAt(name, i)) ==> r == name
    decreases j
  {
    if j == 0 then
      name
    else if name[j - 1] == '.' then
      if j - 1 < |name| - 1 then
        assert ExtensionAt(name, j - 1);
        name[..j - 1]
      else
        assert forall i :: !ExtensionAt(name, i) by {
          forall i | 0 <= i < j - 1 ensures !ExtensionAt(name, i) {
            assert name[j - 1] == '.';
          }
        }
        name
    else if name[j - 1] == '/' then
      assert forall i :: !ExtensionAt(name, i) by {
        forall i | 0 <= i < j - 1 ensures !ExtensionAt(name, i) {
          assert name[j - 1] == '/';
        }
      }
      name
    else StripFrom(name, j - 1)
  }

  /** At most one position starts an extension. */
  lemma ExtensionUnique(name: string, i: int, j: int)
    requires ExtensionAt(name, i) && ExtensionAt(name, j)
    ensures i == j
  {
  }

  /** `extractFileNameWithoutExtension`: `None` stands for `null`. */
  function ExtractFileNameWithoutExtension(path: string): (r: Option<string>)
    ensures r.None? <==> path == [] || IsSep(path[|path| - 1])
  {
    var tail := TailAfterSep(path);
    if tail == [] then None else Some(StripExtension(tail))
  }

  /** The result is the last path segment with its extension (if any)
      removed: a prefix of that segment, followed in it by nothing or by a dot
      and an extension without dots; it contains no separator. */
  lemma ExtractFileNameShape(path: string)
    requires ExtractFileNameWithoutExtension(path).Some?
    ensures var name := ExtractFileNameWithoutExtension(path).value;
      var seg := TailAfterSep(path);
      && seg[..|name|] == name
      && (name == seg || ExtensionAt(seg, |name|))
      && (forall k | 0 <= k < |name| :: !IsSep(name[k]))
  {
    var seg := TailAfterSep(path);
    var name := StripExtension(seg);
    forall k | 0 <= k < |name| ensures !IsSep(name[k]) {
      assert name[k] == seg[k];
    }
  }

  /** A stem followed by a dot and a non-empty extension without dots or
      slashes loses exactly the extension. */
  lemma StripStemExtension(stem: string, ext: string)
    requires ext != [] && forall k | 0 <= k < |ext| :: ext[k] != '.' && ext[k] != '/'
    ensures StripExtension(stem + "." + ext) == stem
  {
    var name := stem + "." + ext;
    assert ExtensionAt(name, |stem|) by {
      forall k | |stem| < k < |name| ensures name[k] != '.' && name[k] != '/' {
        assert name[k] == ext[k - |stem| - 1];
      }
    }
    var r := StripExtension(name);
    ExtensionUnique(name, |r|, |stem|);
    assert name[..|stem|] == stem;
  }

  /** Only the last extension goes. */
  lemma ExtractDoubleExtension()
    ensures ExtractFileNameWithoutExtension("a.tar.gz") == Some("a.tar")
  {
    assert TailAfterSep("a.tar.gz") == "a.tar.gz";
    StripStemExtension("a.tar", "gz");
    assert "a.tar" + "." + "gz" == "a.tar.gz";
  }

  /** A name that is all extension becomes empty. */
  lemma ExtractDotFile()
    ensures ExtractFileNameWithoutExtension("themes/.json") == Some("")
  {
    TailOfSegment("themes", '/', ".json");
    assert "themes" + ['/'] + ".json" == "themes/.json";
    StripStemExtension("", "json");
    assert "" + "." + "json" == ".json";
  }

  /** A trailing dot is not an extension. */
  lemma ExtractTrailingDot()
    ensures ExtractFileNameWithoutExtension("file.") == Some("file.")
  {
    assert TailAfterSep("file.") == "file.";
    assert !ExtensionAt("file.", 4);
  }

  /** Backslashes separate directories too. */
  lemma ExtractWindowsPath()
    ensures ExtractFileNameWithoutExtension("C:\\themes\\clock.json") == Some("clock")
  {
    var path := "C:\\themes\\clock.json";
    assert "C:\\themes" + ['\\'] + "clock.json" == path;
    TailOfSegment("C:\\themes", '\\', "clock.json");
    assert TailAfterSep(path) == "clock.json";
    assert "clock" + "." + "json" == "clock.json";
    StripStemExtension("clock", "json");
    assert StripExtension("clock.json") == "clock";
  }

  // ---------------------------------------------------------------------------
  // formatDatetime

  /** The calendar fields a JavaScript `Date` reports (`getMonth` counts from
      0) and the English month and weekday names, which are taken as given. */
  datatype Date = Date(
    year: int, monthIndex: nat, day: nat, hours: nat, minutes: nat, seconds: nat,
    monthLong: string, monthShort: string, weekdayLong: string, weekdayShort: string)

  predicate ValidClock(d: Date) {
    d.monthIndex < 12 && 1 <= d.day <= 31 && d.hours < 24 && d.minutes < 60 && d.seconds < 60
  }

  /** `padStart(2, "0")`. */
  function Pad2(s: string): (r: string)
    ensures |s| >= 2 ==> r == s
    ensures |s| < 2 ==> |r| == 2 && r[2 - |s|..] == s && forall k | 0 <= k < 2 - |s| :: r[k] == '0'
  {
    if |s| >= 2 then s else if |s| == 1 then "0" + s else "00"
  }

  /** `h % 12 || 12`. */
  function Hour12(h: nat): (r: nat)
    ensures 1 <= r <= 12 && r % 12 == h % 12
  {
    if h % 12 == 0 then 12 else h % 12
  }

  /** The formatting map `map` of `formatDatetime`. */
  function DateMap(d: Date): map<char, string> {
    map[
      'Y' := IntToString(d.year),
      'm' := Pad2(NatToString(d.monthIndex + 1)),
      'd' := Pad2(NatToString(d.day)),
      'B' := d.monthLong,
      'b' := d.monthShort,
      'A' := d.weekdayLong,
      'a' := d.weekdayShort,
      'H' := Pad2(NatToString(d.hours)),
      'M' := Pad2(NatToString(d.minutes)),
      'S' := Pad2(NatToString(d.seconds)),
      'I' := Pad2(NatToString(Hour12(d.hours))),
      'p' := if d.hours < 12 then "AM" else "PM"]
  }

  /** `formatStr.replace(/%(k1|k2|...)/g, ...)` for a pattern whose
      alternatives are the single characters `keys`: scanning from the left,
      each `%` followed by a key is one match and is replaced by the map's
      value, or kept when the map has none; everything else is copied. */
  function Replace(s: string, m: map<char, string>, keys: set<char>): string
    decreases |s|
  {
    if |s| >= 2 && s[0] == '%' && s[1] in keys then
      TokenValue(s[1], m) + Replace(s[2..], m, keys)
    else if s == [] then []
    else [s[0]] + Replace(s[1..], m, keys)
  }

  /** What the token `%c` is replaced by. */
  function TokenValue(c: char, m: map<char, string>): string {
    if c in m then m[c] else ['%', c]
  }

  function FormatDatetime(d: Date, s: string, keys: set<char>): string {
    Replace(s, DateMap(d), keys)
  }

  const DateKeys := {'Y', 'm', 'd', 'B', 'b', 'A', 'a'}
  const TimeKeys := {'H', 'I', 'M', 'S', 'p'}

  function FormatDate(d: Date, s: string): string { FormatDatetime(d, s, DateKeys) }

  function FormatTime(d: Date, s: string): string { FormatDatetime(d, s, TimeKeys) }

  /** Text without `%` comes out unchanged. */
  lemma {:induction false} NoTokenUnchanged(s: string, m: map<char, string>, keys: set<char>)
    requires '%' !in s
    ensures Replace(s, m, keys) == s
    decreases |s|
  {
    if s != [] {
      assert s[0] != '%';
      assert '%' !in s[1..] by {
        forall k | 0 <= k < |s[1..]| ensures s[1..][k] != '%' { assert s[1..][k] == s[k + 1]; }
      }
      NoTokenUnchanged(s[1..], m, keys);
    }
  }

  /** Replacing distributes over a concatenation whose first part does not
      end in `%` (no token straddles the cut). */
  lemma {:induction false} ReplaceAppend(s: string, t: string, m: map<char, string>, keys: set<char>)
    requires s == [] || s[|s| - 1] != '%'
    ensures Replace(s + t, m, keys) == Replace(s, m, keys) + Replace(t, m, keys)
    decreases |s|
  {
    if s == [] {
      assert s + t == t;
    } else if |s| >= 2 && s[0] == '%' && s[1] in keys {
      assert s[2..] == [] || s[2..][|s[2..]| - 1] == s[|s| - 1];
      ReplaceAppend(s[2..], t, m, keys);
      AppendAfterToken(s, t, m, keys);
    } else {
      assert s[1..] == [] || s[1..][|s[1..]| - 1] == s[|s| - 1];
      ReplaceAppend(s[1..], t, m, keys);
      AppendAfterChar(s, t, m, keys);
    }
  }

  /** The step of `ReplaceAppend` when s starts with a token. */
  lemma AppendAfterToken(s: string, t: string, m: map<char, string>, keys: set<char>)
    requires |s| >= 2 && s[0] == '%' && s[1] in keys
    requires Replace(s[2..] + t, m, keys) == Replace(s[2..], m, keys) + Replace(t, m, keys)
    ensures Replace(s + t, m, keys) == Replace(s, m, keys) + Replace(t, m, keys)
  {
    var st := s + t;
    assert st[0] == '%' && st[1] == s[1] && st[2..] == s[2..] + t;
    ReplaceTokenStep(st, m, keys);
    ReplaceTokenStep(s, m, keys);
    StringAssoc(TokenValue(s[1], m), Replace(s[2..], m, keys), Replace(t, m, keys));
  }

  /** The step of `ReplaceAppend` when s starts with a plain character. */
  lemma AppendAfterChar(s: string, t: string, m: map<char, string>, keys: set<char>)
    requires s != [] && s[|s| - 1] != '%' && !(|s| >= 2 && s[0] == '%' && s[1] in keys)
    requires Replace(s[1..] + t, m, keys) == Replace(s[1..], m, keys) + Replace(t, m, keys)
    ensures Replace(s + t, m, keys) == Replace(s, m, keys) + Replace(t, m, keys)
  {
    var st := s + t;
    assert st[0] == s[0] && st[1..] == s[1..] + t;
    assert !(|st| >= 2 && st[0] == '%' && st[1] in keys) by {
      if |s| == 1 { assert s[0] != '%'; } else { assert st[1] == s[1]; }
    }
    ReplaceCharStep(st, m, keys);
    ReplaceCharStep(s, m, keys);
    StringAssoc([s[0]], Replace(s[1..], m, keys), Replace(t, m, keys));
  }

  lemma ReplaceTokenStep(s: string, m: map<char, string>, keys: set<char>)
    requires |s| >= 2 && s[0] == '%' && s[1] in keys
    ensures Replace(s, m, keys) == TokenValue(s[1], m) + Replace(s[2..], m, keys)
  {
  }

  lemma ReplaceCharStep(s: string, m: map<char, string>, keys: set<char>)
    requires s != [] && !(|s| >= 2 && s[0] == '%' && s[1] in keys)
    ensures Replace(s, m, keys) == [s[0]] + Replace(s[1..], m, keys)
  {
  }

  lemma StringAssoc(a: string, b: string, c: string)
    ensures a + (b + c) == (a + b) + c
  {
  }

  /** A token of the pattern becomes its value, or stays when the map has
      none; a `%` followed by a character outside the pattern stays literal. */
  lemma Token(k: char, m: map<char, string>, keys: set<char>)
    ensures k in keys && k in m ==> Replace(['%', k], m, keys) == m[k]
    ensures k in keys && k !in m ==> Replace(['%', k], m, keys) == ['%', k]
    ensures k !in keys ==> Replace(['%', k], m, keys) == ['%', k]
  {
    var s := ['%', k];
    if k !in keys {
      assert s[1..] == [k] && [k][1..] == [];
      assert Replace([k], m, keys) == [k];
    } else {
      assert s[2..] == [];
    }
  }

  /** `formatDate` leaves time tokens alone and `formatTime` date tokens. */
  lemma KeysDisjoint(d: Date)
    ensures FormatDate(d, "%H") == "%H" && FormatTime(d, "%Y") == "%Y"
  {
    Token('H', DateMap(d), DateKeys);
    Token('Y', DateMap(d), TimeKeys);
  }

  /** Every key of either pattern has a value in the map, so no match is
      ever kept as it is. */
  lemma EveryKeyMapped(d: Date)
    ensures DateKeys + TimeKeys <= DateMap(d).Keys
  {
  }

  /** Two-digit fields: a valid month, day, hour, minute, second or 12-hour
      hour renders as exactly two digits whose value is the field. */
  lemma {:induction false} TwoDigits(n: nat)
    requires n < 100
    ensures var r := Pad2(NatToString(n));
      |r| == 2 && IsDigit(r[0]) && IsDigit(r[1]) && DecimalValue(r) == n
  {
    var s := NatToString(n);
    NatToStringValue(n);
    if n < 10 {
      assert s == [DigitChar(n)];
      var r := Pad2(s);
      assert r == ['0', DigitChar(n)];
      assert r[..1] == ['0'];
      assert DecimalValue(['0']) == 0 by { assert ['0'][..0] == []; }
    } else {
      assert s == NatToString(n / 10) + [DigitChar(n % 10)];
      assert NatToString(n / 10) == [DigitChar(n / 10)];
    }
  }

  /** The 12-hour clock and the AM/PM marker. */
  lemma ClockFields(d: Date)
    requires ValidClock(d)
    ensures FormatTime(d, "%p") == if d.hours < 12 then "AM" else "PM"
    ensures var r := FormatTime(d, "%I");
      |r| == 2 && DecimalValue(r) == Hour12(d.hours) && 1 <= Hour12(d.hours) <= 12
  {
    Token('p', DateMap(d), TimeKeys);
    Token('I', DateMap(d), TimeKeys);
    TwoDigits(Hour12(d.hours));
  }

  /** A token, then a character other than `%`, then the rest. */
  lemma TokenThen(m: map<char, string>, keys: set<char>, a: char, x: char, rest: string)
    requires x != '%' && a != '%' && a in keys && a in m
    ensures Replace(['%', a, x] + rest, m, keys) == m[a] + [x] + Replace(rest, m, keys)
  {
    Token(a, m, keys);
    assert ['%', a, x] + rest == ['%', a] + ([x] + rest);
    ReplaceAppend(['%', a], [x] + rest, m, keys);
    assert ([x] + rest)[1..] == rest;
  }

  /** Three tokens joined by two one-character separators without `%`. */
  lemma ThreeTokens(m: map<char, string>, keys: set<char>, a: char, x: char, b: char, y: char, c: char)
    requires x != '%' && y != '%' && a != '%' && b != '%'
    requires a in keys && b in keys && c in keys && a in m && b in m && c in m
    ensures Replace(['%', a, x, '%', b, y, '%', c], m, keys) == m[a] + [x] + m[b] + [y] + m[c]
  {
    Token(c, m, keys);
    TokenThen(m, keys, b, y, ['%', c]);
    TokenThen(m, keys, a, x, ['%', b, y] + ['%', c]);
    assert ['%', a, x, '%', b, y, '%', c] == ['%', a, x] + (['%', b, y] + ['%', c]);
  }

  /** The values the map gives the keys of the three default formats. */
  lemma DateMapFields(d: Date)
    ensures var m := DateMap(d);
      && m['Y'] == IntToString(d.year)
      && m['m'] == Pad2(NatToString(d.monthIndex + 1))
      && m['d'] == Pad2(NatToString(d.day))
      && m['H'] == Pad2(NatToString(d.hours))
      && m['M'] == Pad2(NatToString(d.minutes))
      && m['S'] == Pad2(NatToString(d.seconds))
      && m['I'] == Pad2(NatToString(Hour12(d.hours)))
      && m['p'] == (if d.hours < 12 then "AM" else "PM")
  {
  }

  /** The default time format, `%H:%M:%S`: hours, minutes and seconds as two
      digits each, joined by colons. */
  lemma DefaultTimeFormat(d: Date)
    ensures FormatTime(d, "%H:%M:%S")
      == Pad2(NatToString(d.hours)) + ":" + Pad2(NatToString(d.minutes)) + ":" + Pad2(NatToString(d.seconds))
  {
    DateMapFields(d);
    ThreeTokens(DateMap(d), TimeKeys, 'H', ':', 'M', ':', 'S');
    assert "%H:%M:%S" == ['%', 'H', ':', '%', 'M', ':', '%', 'S'];
  }

  /** The 12-hour format `%I:%M %p`. */
  lemma TwelveHourFormat(d: Date)
    ensures FormatTime(d, "%I:%M %p")
      == Pad2(NatToString(Hour12(d.hours))) + ":" + Pad2(NatToString(d.minutes)) + " "
        + (if d.hours < 12 then "AM" else "PM")
  {
    DateMapFields(d);
    ThreeTokens(DateMap(d), TimeKeys, 'I', ':', 'M', ' ', 'p');
    assert "%I:%M %p" == ['%', 'I', ':', '%', 'M', ' ', '%', 'p'];
  }

  /** The default date format, `%Y-%m-%d`, with the month counted from 1. */
  lemma DefaultDateFormat(d: Date)
    ensures FormatDate(d, "%Y-%m-%d")
      == IntToString(d.year) + "-" + Pad2(NatToString(d.monthIndex + 1)) + "-" + Pad2(NatToString(d.day))
  {
    DateMapFields(d);
    ThreeTokens(DateMap(d), DateKeys, 'Y', '-', 'm', '-', 'd');
    assert "%Y-%m-%d" == ['%', 'Y', '-', '%', 'm', '-', '%', 'd'];
  }

  /** The decimal texts the afternoon example needs. */
  lemma SmallNumerals()
    ensures NatToString(2) == "2" && NatToString(3) == "3" && NatToString(5) == "5"
    ensures NatToString(7) == "7" && NatToString(9) == "9" && NatToString(14) == "14"
    ensures IntToString(2024) == "2024"
  {
    assert NatToString(14) == "14" by { assert NatToString(1) == "1" && NatToString(4) == "4"; }
    assert NatToString(2024) == "2024" by {
      assert NatToString(202) == "202" by {
        assert NatToString(20) == "20" by { assert NatToString(0) == "0"; }
      }
    }
  }

  /** 9 March 2024 at 14:05:07 (`getMonth` gives 2). */
  const Afternoon := Date(2024, 2, 9, 14, 5, 7, "March", "Mar", "Saturday", "Sat")

  lemma AfternoonTime()
    ensures FormatTime(Afternoon, "%H:%M:%S") == "14:05:07"
  {
    DefaultTimeFormat(Afternoon);
    SmallNumerals();
    assert Pad2("5") == "05" && Pad2("7") == "07";
  }

  lemma AfternoonTwelveHour()
    ensures FormatTime(Afternoon, "%I:%M %p") == "02:05 PM"
  {
    TwelveHourFormat(Afternoon);
    SmallNumerals();
    assert Hour12(14) == 2;
    assert Pad2("2") == "02" && Pad2("5") == "05";
  }

  lemma AfternoonDate()
    ensures FormatDate(Afternoon, "%Y-%m-%d") == "2024-03-09"
  {
    DefaultDateFormat(Afternoon);
    SmallNumerals();
    assert Pad2("3") == "03" && Pad2("9") == "09";
  }

  // ---------------------------------------------------------------------------
  // cachedFunc

  /** A stored result and the time it was computed. */
  datatype Entry<R> = Entry(result: R, timestamp: int)

  /** The stored result is used iff the key is present and younger than the
      cache time. */
  predicate Fresh<R>(cache: map<string, Entry<R>>, key: string, now: int, cacheTime: int) {
    key in cache && now - cache[key].timestamp < cacheTime
  }

  /** A call of the cached function with argument text `key` at time `now`;
      `computed` is what the wrapped function returns if it is called, `None`
      when it raises. The results: the new cache, the value returned (`None`
      when the exception propagates), whether `func` was called. */
  function CachedCall<R>(cache: map<string, Entry<R>>, cacheTime: int, key: string, now: int, computed: Option<R>)
    : (map<string, Entry<R>>, Option<R>, bool)
  {
    if Fresh(cache, key, now, cacheTime) then (cache, Some(cache[key].result), false)
    else if computed.None? then (cache, None, true)
    else (cache[key := Entry(computed.value, now)], computed, true)
  }

  /** A second call with the same key within the cache time returns the first
      call's result without calling `func`; once the cache time has passed it
      calls `func` again and returns the new result. */
  lemma CacheWindow<R>(cache: map<string, Entry<R>>, cacheTime: int, key: string, t0: int, t1: int, r0: R, r1: R)
    requires !Fresh(cache, key, t0, cacheTime)
    ensures var (c1, v0, called0) := CachedCall(cache, cacheTime, key, t0, Some(r0));
      var (c2, v1, called1) := CachedCall(c1, cacheTime, key, t1, Some(r1));
      && called0 && v0 == Some(r0)
      && (t1 - t0 < cacheTime ==> !called1 && v1 == Some(r0) && c2 == c1)
      && (t1 - t0 >= cacheTime ==> called1 && v1 == Some(r1) && c2[key] == Entry(r1, t1))
  {
  }

  /** When `func` raises, the exception reaches the caller and nothing is
      stored, so any later call with the same key calls `func` again. */
  lemma RaiseStoresNothing<R>(cache: map<string, Entry<R>>, cacheTime: int, key: string, t0: int, t1: int, r1: Option<R>)
    requires !Fresh(cache, key, t0, cacheTime) && t0 <= t1
    ensures var (c1, v0, called0) := CachedCall(cache, cacheTime, key, t0, None);
      && called0 && v0.None? && c1 == cache
      && CachedCall(c1, cacheTime, key, t1, r1).2
  {
  }

  /** Calls with other keys neither read nor disturb an entry. */
  lemma CacheKeysIndependent<R>(cache: map<string, Entry<R>>, cacheTime: int, key: string, other: string, now: int, r: Option<R>)
    requires other != key
    ensures var c := CachedCall(cache, cacheTime, other, now, r).0;
      (key in c <==> key in cache) && (key in cache ==> c[key] == cache[key])
  {
  }

  /** The cache of one `cachedFunc` wrapper. */
  class CachedFunction<R> {
    var cache: map<string, Entry<R>>
    const cacheTime: int
    /** The argument texts the wrapped function was called with, in order. */
    var calls: seq<string>

    constructor (cacheTime: int)
      ensures cache == map[] && calls == [] && this.cacheTime == cacheTime
    {
      cache := map[];
      this.cacheTime := cacheTime;
      calls := [];
    }

    /** `computed` is `None` when the wrapped function raises; `r` is then
        `None` too, standing for the exception the caller receives. */
    method Call(key: string, now: int, computed: Option<R>) returns (r: Option<R>)
      modifies this
      ensures var (c, v, called) := CachedCall(old(cache), cacheTime, key, now, computed);
        cache == c && r == v && calls == old(calls) + (if called then [key] else [])
    {
      if key in cache {
        var item := cache[key];
        if now - item.timestamp < cacheTime {
          return Some(item.result);
        }
      }
      calls := calls + [key];
      r := computed;
      if computed.None? {
        return;
      }
      cache := cache[key := Entry(computed.value, now)];
    }

    method ClearCache()
      modifies this`cache
      ensures cache == map[]
    {
      cache := map[];
    }
  }

  // ---------------------------------------------------------------------------
  // throttle

  /** `lastArgs`, whether `timeout` is set, whether a timer callback is
      actually queued, and the calls of `func` made so far. */
  datatype Throttle<A> = Throttle(lastArgs: Option<A>, pending: bool, scheduled: bool, calls: seq<A>)

  /** `timeout` is set exactly when arguments are waiting, and a queued
      callback implies `timeout` is set. */
  predicate Consistent<A>(t: Throttle<A>) {
    && (t.pending <==> t.lastArgs.Some?)
    && (t.scheduled ==> t.pending)
  }

  /** Consistent, and every set `timeout` still has its callback queued. */
  predicate Healthy<A>(t: Throttle<A>) {
    Consistent(t) && t.scheduled == t.pending
  }

  /** A call of the throttled function: remember the arguments, set the timer
      if `timeout` is not set. */
  function Invoke<A>(t: Throttle<A>, args: A): Throttle<A> {
    if t.pending then t.(lastArgs := Some(args))
    else t.(lastArgs := Some(args), pending := true, scheduled := true)
  }

  /** The timer fires: call `func` with the latest arguments, then reset. If
      `func` raises, the two assignments after it never run: the arguments
      and `timeout` stay set while no callback is queued any more. */
  function Fire<A>(t: Throttle<A>, raises: bool): Throttle<A>
    requires t.scheduled && t.lastArgs.Some?
  {
    if raises then t.(scheduled := false, calls := t.calls + [t.lastArgs.value])
    else Throttle(None, false, false, t.calls + [t.lastArgs.value])
  }

  function InvokeAll<A>(t: Throttle<A>, xs: seq<A>): Throttle<A>
    decreases |xs|
  {
    if xs == [] then t else InvokeAll(Invoke(t, xs[0]), xs[1..])
  }

  /** Calls and firings keep the state consistent; a firing that does not
      raise also keeps it healthy and leaves nothing waiting. */
  lemma ThrottleConsistent<A>(t: Throttle<A>, args: A, raises: bool)
    requires Consistent(t)
    ensures Consistent(Invoke(t, args))
    ensures Healthy(t) ==> Healthy(Invoke(t, args)) && Invoke(t, args).scheduled
    ensures t.scheduled ==> Consistent(Fire(t, raises))
    ensures t.scheduled ==> Healthy(Fire(t, false)) && !Fire(t, false).pending
  {
  }

  /** A burst of calls leaves only the last arguments waiting, makes no call
      of `func`, and queues a callback iff one was queued or `timeout` was not
      set. */
  lemma {:induction false} BurstKeepsLast<A>(t: Throttle<A>, xs: seq<A>)
    requires Consistent(t) && xs != []
    ensures var u := InvokeAll(t, xs);
      && Consistent(u) && u.pending && u.lastArgs == Some(xs[|xs| - 1]) && u.calls == t.calls
      && u.scheduled == (t.scheduled || !t.pending)
    decreases |xs|
  {
    if |xs| > 1 {
      BurstKeepsLast(Invoke(t, xs[0]), xs[1..]);
      assert xs[1..][|xs[1..]| - 1] == xs[|xs| - 1];
    }
  }

  /** Any burst of calls from idle results in exactly one call of `func`, with
      the last arguments. */
  lemma BurstCallsOnce<A>(xs: seq<A>)
    requires xs != []
    ensures var u := InvokeAll(Throttle(None, false, false, []), xs);
      u.scheduled && u.lastArgs.Some? && Fire(u, false).calls == [xs[|xs| - 1]]
  {
    BurstKeepsLast(Throttle(None, false, false, []), xs);
  }

  /** Once `func` has raised, no later burst of calls queues a callback: the
      wrapper never calls `func` again, whatever arguments arrive. */
  lemma {:induction false} RaiseWedges<A>(t: Throttle<A>, xs: seq<A>)
    requires Consistent(t) && t.scheduled
    ensures var u := InvokeAll(Fire(t, true), xs);
      !u.scheduled && u.pending && u.calls == t.calls + [t.lastArgs.value]
    decreases |xs|
  {
    var f := Fire(t, true);
    if xs != [] {
      WedgedStaysWedged(Invoke(f, xs[0]), xs[1..]);
    }
  }

  lemma {:induction false} WedgedStaysWedged<A>(t: Throttle<A>, xs: seq<A>)
    requires t.pending && !t.scheduled
    ensures var u := InvokeAll(t, xs); !u.scheduled && u.pending && u.calls == t.calls
    decreases |xs|
  {
    if xs != [] {
      WedgedStaysWedged(Invoke(t, xs[0]), xs[1..]);
    }
  }

  /** The state captured by one `throttle` wrapper. */
  class Throttled<A> {
    var lastArgs: Option<A>
    var pending: bool
    /** Whether the browser holds a queued callback of this wrapper. */
    var scheduled: bool
    var calls: seq<A>

    constructor ()
      ensures lastArgs == None && !pending && !scheduled && calls == []
    {
      lastArgs := None;
      pending := false;
      scheduled := false;
      calls := [];
    }

    function State(): Throttle<A>
      reads this
    {
      Throttle(lastArgs, pending, scheduled, calls)
    }

    method Call(args: A)
      modifies this
      ensures State() == Invoke(old(State()), args)
    {
      lastArgs := Some(args);
      if !pending {
        pending := true;
        scheduled := true;
      }
    }

    /** The timer callback; it only runs while queued. `raises` says whether
        `func` raises, which skips the resets after it. */
    method Elapse(raises: bool)
      requires scheduled && lastArgs.Some?
      modifies this
      ensures State() == Fire(old(State()), raises)
    {
      scheduled := false;
      calls := calls + [lastArgs.value];
      if raises {
        return;
      }
      pending := false;
      lastArgs := None;
    }
  }
}
