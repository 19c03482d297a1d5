/** The "second screen" pseudo-panel of `libs/lcds/SecondScreen.py`: a
    borderless window on a non-primary monitor, and the registry
    (`find_2nd_screen` with its module-level cache) that hands out one window
    object per monitor geometry. The window toolkit is abstracted as a log of
    window events. */
module SecondScreen {
  import opened Common
  import PC = PixelCodec

  /** A monitor as the window toolkit reports it. */
  datatype Geometry = Geometry(width: int, height: int, x: int, y: int)

  // ---------------------------------------------------------------------------
  // Cache key

  /** The dictionary key `f"{w}-{h}-{x}-{y}"`. */
  function CacheKey(g: Geometry): string
    requires g.width >= 0 && g.height >= 0
  {
    NatToString(g.width) + "-" + NatToString(g.height) + "-" + IntToString(g.x) + "-" + IntToString(g.y)
  }

  /** Length of the longest prefix of decimal digits. */
  function DigitRun(s: string): (k: nat)
    ensures k <= |s|
    ensures forall i | 0 <= i < k :: IsDigit(s[i])
    ensures k < |s| ==> !IsDigit(s[k])
  {
    if s == [] || !IsDigit(s[0]) then 0 else 1 + DigitRun(s[1..])
  }

  /** Reads a natural number off the front of s: its value and the rest. */
  function ReadNat(s: string): (string, nat) {
    var k := DigitRun(s);
    (s[k..], DecimalValue(s[..k]))
  }

  /** Reads an optionally negative integer off the front of s. */
  function ReadInt(s: string): (string, int) {
    if s != [] && s[0] == '-' then var (rest, n) := ReadNat(s[1..]); (rest, -(n as int))
    else var (rest, n) := ReadNat(s); (rest, n)
  }

  /** Splits "x-y" back into the two integers, if it has that shape. */
  function ParseTail(s: string): Option<(int, int)> {
    var (r3, x) := ReadInt(s);
    if r3 == [] || r3[0] != '-' then None else
    var (r4, y) := ReadInt(r3[1..]);
    if r4 != [] then None else Some((x, y))
  }

  /** Splits a key back into the four numbers, if it has the key's shape. */
  function ParseKey(s: string): Option<Geometry> {
    var (r1, w) := ReadNat(s);
    if r1 == [] || r1[0] != '-' then None else
    var (r2, h) := ReadNat(r1[1..]);
    if r2 == [] || r2[0] != '-' then None else
    match ParseTail(r2[1..])
    case None => None
    case Some((x, y)) => Some(Geometry(w, h, x, y))
  }

  lemma {:induction false} DigitRunOfDigits(d: string, r: string)
    requires forall i | 0 <= i < |d| :: IsDigit(d[i])
    requires r == [] || !IsDigit(r[0])
    ensures DigitRun(d + r) == |d|
  {
    if d != [] {
      assert (d + r)[1..] == d[1..] + r;
      DigitRunOfDigits(d[1..], r);
    }
  }

  lemma ReadNatOf(n: nat, r: string)
    requires r == [] || !IsDigit(r[0])
    ensures ReadNat(NatToString(n) + r) == (r, n)
  {
    var d := NatToString(n);
    DigitRunOfDigits(d, r);
    assert (d + r)[..|d|] == d;
    assert (d + r)[|d|..] == r;
    NatToStringValue(n);
  }

  lemma ReadIntOf(i: int, r: string)
    requires r == [] || !IsDigit(r[0])
    ensures ReadInt(IntToString(i) + r) == (r, i)
  {
    if i < 0 {
      var d := NatToString(-i);
      DropDash(d, r);
      assert IntToString(i) + r == "-" + d + r;
      ReadNatOf(-i, r);
    } else {
      var d := NatToString(i);
      assert (d + r)[0] == d[0] && IsDigit(d[0]);
      ReadNatOf(i, r);
    }
  }

  lemma ParseTailOf(x: int, y: int)
    ensures ParseTail(IntToString(x) + "-" + IntToString(y)) == Some((x, y))
  {
    var r3 := "-" + IntToString(y);
    assert IntToString(x) + "-" + IntToString(y) == IntToString(x) + r3;
    ReadIntOf(x, r3);
    assert r3[1..] == IntToString(y) + [];
    ReadIntOf(y, []);
  }

  /** The key can be read back into the geometry ... */
  lemma ParseCacheKey(g: Geometry)
    requires g.width >= 0 && g.height >= 0
    ensures ParseKey(CacheKey(g)) == Some(g)
  {
    var w, h := NatToString(g.width), NatToString(g.height);
    var tail := IntToString(g.x) + "-" + IntToString(g.y);
    var r2 := "-" + tail;
    var r1 := "-" + h + r2;
    KeyShape(w, h, IntToString(g.x), IntToString(g.y));
    DropDash(h, r2);
    DropDash(tail, []);
    ReadNatOf(g.width, r1);
    ReadNatOf(g.height, r2);
    ParseTailOf(g.x, g.y);
  }

  lemma KeyShape(w: string, h: string, x: string, y: string)
    ensures w + "-" + h + "-" + x + "-" + y == w + ("-" + h + ("-" + (x + "-" + y)))
  {
  }

  lemma DropDash(a: string, b: string)
    ensures ("-" + a + b)[1..] == a + b
  {
  }

  /** ... so two monitors share a cache entry exactly when their geometries
      are equal, and the registry may be keyed by the geometry itself. */
  lemma CacheKeyInjective(g1: Geometry, g2: Geometry)
    requires g1.width >= 0 && g1.height >= 0 && g2.width >= 0 && g2.height >= 0
    ensures CacheKey(g1) == CacheKey(g2) <==> g1 == g2
  {
    ParseCacheKey(g1);
    ParseCacheKey(g2);
  }

  // ---------------------------------------------------------------------------
  // The window object

  /** What happens to a screen's window: created, shown an image, destroyed. */
  datatype WindowEvent = Created | Showed(img: PC.Image) | Destroyed

  /** Whether a window exists after these events. */
  function OpenAfter(events: seq<WindowEvent>): bool {
    if events == [] then false
    else match events[|events| - 1]
      case Created => true
      case Destroyed => false
      case Showed(_) => OpenAfter(events[..|events| - 1])
  }

  /** Windows are created only when none exists, and images shown and windows
      destroyed only while one exists. */
  predicate Alternates(events: seq<WindowEvent>) {
    events == [] ||
    (var last, before := events[|events| - 1], events[..|events| - 1];
     Alternates(before) && (if last.Created? then !OpenAfter(before) else OpenAfter(before)))
  }

  function Count(events: seq<WindowEvent>, e: WindowEvent): nat {
    if events == [] then 0
    else Count(events[..|events| - 1], e) + if events[|events| - 1] == e then 1 else 0
  }

  /** In a well-formed history each window is destroyed at most once: the
      destroys number the creations, less one while a window is open. */
  lemma {:induction false} DestroyedAtMostOnce(events: seq<WindowEvent>)
    requires Alternates(events)
    ensures Count(events, Destroyed) + (if OpenAfter(events) then 1 else 0) == Count(events, Created)
  {
    if events != [] {
      DestroyedAtMostOnce(events[..|events| - 1]);
    }
  }

  /** Name given to the screen found at position `index` among the
      non-primary monitors. */
  function ScreenName(index: nat): string {
    "2ndScreen #" + NatToString(index + 1)
  }

  class Screen2 {
    const name: string
    const geometry: Geometry
    /** Whether `__window` is set. */
    var hasWindow: bool
    var events: seq<WindowEvent>

    predicate Valid()
      reads this
    {
      Alternates(events) && hasWindow == OpenAfter(events)
    }

    constructor (index: nat, g: Geometry)
      ensures name == ScreenName(index) && geometry == g
      ensures !hasWindow && events == [] && Valid()
    {
      name := ScreenName(index);
      geometry := g;
      hasWindow := false;
      events := [];
    }

    /** `unique_id` is the name. */
    function UniqueId(): (id: string)
      reads this
      ensures id == name
    {
      name
    }

    /** `is_open` (like the class's `is_connected`) always holds. */
    predicate IsOpen()
      reads this
    {
      true
    }

    /** `read` returns None; `open`, `write`, `handshake`, `clear` and
        `set_brightness` do nothing, which a method without a `modifies`
        clause states. */
    method Read(length: nat) returns (r: Option<seq<byte>>)
      ensures r == None
    {
      r := None;
    }

    method Open() { }

    method Write(data: seq<byte>) { }

    method Handshake() { }

    method Clear() { }

    method SetBrightness(b: int) { }

    /** `display`: creates the window if there is none, then shows the image. */
    method Display(img: PC.Image)
      requires Valid()
      modifies this
      ensures Valid() && hasWindow
      ensures events == old(events) + (if old(hasWindow) then [] else [Created]) + [Showed(img)]
    {
      if !hasWindow {
        events := events + [Created];
        hasWindow := true;
        assert events[..|events| - 1] == old(events);
      }
      ghost var mid := events;
      assert Alternates(mid) && OpenAfter(mid);
      events := events + [Showed(img)];
      assert events[..|events| - 1] == mid;
      assert events[|events| - 1] == Showed(img);
    }

    /** `close`: destroys the window if there is one; a second close does
        nothing. */
    method Close()
      requires Valid()
      modifies this
      ensures Valid() && !hasWindow
      ensures events == old(events) + if old(hasWindow) then [Destroyed] else []
    {
      if hasWindow {
        events := events + [Destroyed];
        hasWindow := false;
        assert events[..|events| - 1] == old(events);
      }
    }
  }

  // ---------------------------------------------------------------------------
  // The registry

  /** The monitors after the primary one (`screens[1:]`). */
  function NonPrimary(monitors: seq<Geometry>): seq<Geometry> {
    if monitors == [] then [] else monitors[1..]
  }

  /** Position among the non-primary monitors of the first one with geometry g. */
  function FirstIndex(monitors: seq<Geometry>, g: Geometry): (j: nat)
    requires g in NonPrimary(monitors)
    ensures j + 1 < |monitors| && monitors[j + 1] == g
    ensures forall k | 1 <= k <= j :: monitors[k] != g
  {
    if monitors[1] == g then 0
    else
      assert g in NonPrimary(monitors[1..]);
      var j := FirstIndex(monitors[1..], g);
      j + 1
  }

  /** The cache facts the registry's loop keeps, after `i` monitors of `rest`. */
  ghost predicate CacheSoFar(c0: map<Geometry, Screen2>, c: map<Geometry, Screen2>, rest: seq<Geometry>,
                       res: seq<Screen2>, i: int)
    requires 0 <= i <= |rest|
  {
    && |res| == i
    && (forall k | 0 <= k < i :: rest[k] in c && res[k] == c[rest[k]])
    && (forall g :: g in c <==> g in c0 || g in rest[..i])
    && (forall g | g in c0 :: g in c && c[g] == c0[g])
  }

  /** One lookup of the registry's loop keeps the cache facts. */
  lemma CacheStep(c0: map<Geometry, Screen2>, c: map<Geometry, Screen2>, c': map<Geometry, Screen2>,
                  rest: seq<Geometry>, res: seq<Screen2>, i: int, screen: Screen2)
    requires 0 <= i < |rest| && CacheSoFar(c0, c, rest, res, i)
    requires rest[i] in c ==> screen == c[rest[i]] && c' == c
    requires rest[i] !in c ==> c' == c[rest[i] := screen]
    ensures CacheSoFar(c0, c', rest, res + [screen], i + 1)
  {
    assert rest[..i + 1] == rest[..i] + [rest[i]];
  }

  class ScreenRegistry {
    /** `__2nd_screen_cache`, keyed by geometry (see CacheKeyInjective). */
    var cache: map<Geometry, Screen2>

    /** Every cached screen sits under its own geometry. */
    predicate Valid()
      reads this, cache.Values
    {
      forall g | g in cache :: cache[g].geometry == g
    }

    constructor ()
      ensures cache == map[] && Valid()
    {
      cache := map[];
    }

    /** One cache lookup of `find_2nd_screen`: the cached screen of this
        geometry, or a new one for position `index`, which is then cached. */
    method GetOrCreate(g: Geometry, index: nat) returns (screen: Screen2)
      requires Valid()
      modifies this
      ensures Valid()
      ensures g in old(cache) ==> screen == old(cache)[g] && cache == old(cache)
      ensures g !in old(cache) ==>
        && fresh(screen) && screen.name == ScreenName(index) && screen.geometry == g
        && !screen.hasWindow && screen.events == []
        && cache == old(cache)[g := screen]
    {
      if g in cache {
        screen := cache[g];
      } else {
        screen := new Screen2(index, g);
        cache := cache[g := screen];
      }
    }

    /** `find_2nd_screen`: nothing for a single monitor; otherwise one screen
        per non-primary monitor, in order, reusing the cached screen for a
        known geometry and creating (and caching) a new one named after the
        monitor's position otherwise. */
    method Find2ndScreens(monitors: seq<Geometry>) returns (res: seq<Screen2>)
      requires Valid()
      modifies this
      ensures Valid()
      ensures |monitors| == 1 ==> res == [] && cache == old(cache)
      ensures |monitors| != 1 ==>
        && |res| == |NonPrimary(monitors)|
        && (forall i | 0 <= i < |res| :: monitors[i + 1] in cache && res[i] == cache[monitors[i + 1]])
        && (forall g :: g in cache <==> g in old(cache) || g in NonPrimary(monitors))
      ensures forall g | g in old(cache) :: g in cache && cache[g] == old(cache)[g]
      ensures forall g | g in cache && g !in old(cache) ::
        fresh(cache[g]) && cache[g].name == ScreenName(FirstIndex(monitors, g))
    {
      if |monitors| == 1 {
        return [];
      }
      res := [];
      var rest := NonPrimary(monitors);
      var i := 0;
      while i < |rest|
        invariant 0 <= i <= |rest|
        invariant Valid()
        invariant CacheSoFar(old(cache), cache, rest, res, i)
        invariant forall g | g in cache && g !in old(cache) ::
          fresh(cache[g]) && cache[g].name == ScreenName(FirstIndex(monitors, g))
      {
        var g := rest[i];
        assert g in NonPrimary(monitors);
        if g !in cache {
          assert forall k | 0 <= k < i :: rest[k] != g;
          assert FirstIndex(monitors, g) == i;
        }
        ghost var before := cache;
        var screen := GetOrCreate(g, i);
        CacheStep(old(cache), before, cache, rest, res, i, screen);
        res := res + [screen];
        i := i + 1;
      }
      assert rest[..i] == rest;
    }
  }

  /** Asking twice with the same monitors returns the same objects and creates
      nothing the second time. */
  method SameMonitorsSameScreens(registry: ScreenRegistry, monitors: seq<Geometry>)
    returns (first: seq<Screen2>, second: seq<Screen2>)
    requires registry.Valid()
    modifies registry
    ensures second == first
  {
    first := registry.Find2ndScreens(monitors);
    ghost var cacheAfterFirst := registry.cache;
    second := registry.Find2ndScreens(monitors);
    assert registry.cache == cacheAfterFirst;
  }
}
