/** The message translator of `app/i18n.py`: a dotted key such as
    `"msg.ScreenDisplayFailed"` is split at every dot and walked through the
    nested message tables of the current locale, then of the fallback locale;
    when neither has it, the key itself is the translation. */
module I18n {
  import opened Common

  /** A message entry: a text, or a nested table of entries. */
  datatype Value = Text(s: string) | Table(entries: map<string, Value>)

  type Messages = map<string, map<string, Value>>

  /** What a lookup does: return a value, or raise `AttributeError` (calling
      `.get` on the `None` an unknown locale yields). */
  datatype Raises<T> = Returns(value: T) | RaisesAttributeError

  // ---------------------------------------------------------------------------
  // Splitting a key at its dots (`str.split(".")`).

  function Split(s: string): (parts: seq<string>)
    ensures |parts| >= 1
    ensures forall i | 0 <= i < |parts| :: '.' !in parts[i]
  {
    if s == [] then [[]]
    else
      var rest := Split(s[1..]);
      if s[0] == '.' then [[]] + rest
      else [[s[0]] + rest[0]] + rest[1..]
  }

  /** `".".join(parts)`. */
  function Join(parts: seq<string>): string
    requires |parts| >= 1
  {
    if |parts| == 1 then parts[0] else parts[0] + "." + Join(parts[1..])
  }

  /** Joining the parts of a key gives the key back. */
  lemma {:induction false} JoinSplit(s: string)
    ensures Join(Split(s)) == s
  {
    if s != [] {
      var rest := Split(s[1..]);
      JoinSplit(s[1..]);
      if s[0] == '.' {
        assert Join([[]] + rest) == "." + Join(rest);
      } else if |rest| == 1 {
        assert Split(s) == [[s[0]] + rest[0]];
      } else {
        var p := [[s[0]] + rest[0]] + rest[1..];
        assert p[1..] == rest[1..];
        assert Join(rest) == rest[0] + "." + Join(rest[1..]);
      }
    }
  }

  /** Splitting joined dot-free parts gives the parts back. */
  lemma {:induction false} SplitJoin(parts: seq<string>)
    requires |parts| >= 1
    requires forall i | 0 <= i < |parts| :: '.' !in parts[i]
    ensures Split(Join(parts)) == parts
    decreases |parts|, |parts[0]|
  {
    var p := parts[0];
    if p == [] {
      if |parts| > 1 {
        assert Join(parts) == "." + Join(parts[1..]);
        SplitJoin(parts[1..]);
        assert Join(parts)[1..] == Join(parts[1..]);
      }
    } else {
      var parts' := [p[1..]] + parts[1..];
      assert '.' !in p[1..] by {
        forall i | 0 <= i < |p[1..]| ensures p[1..][i] != '.' { assert p[1..][i] == p[i + 1]; }
      }
      assert forall i | 0 <= i < |parts'| :: '.' !in parts'[i] by {
        forall i | 0 <= i < |parts'| ensures '.' !in parts'[i] {
          if i > 0 { assert parts'[i] == parts[i]; }
        }
      }
      SplitJoin(parts');
      JoinFirstChar(parts);
      SplitFirstChar(p[0], Join(parts'));
      assert [p[0]] + p[1..] == p;
      assert parts == [p] + parts[1..];
    }
  }

  /** Splitting text that starts with a character other than a dot puts that
      character in front of the first part. */
  lemma SplitFirstChar(c: char, s: string)
    requires c != '.'
    ensures Split([c] + s) == [[c] + Split(s)[0]] + Split(s)[1..]
  {
    assert ([c] + s)[1..] == s;
  }

  /** Joining parts whose first part is not empty starts with that part's
      first character. */
  lemma JoinFirstChar(parts: seq<string>)
    requires |parts| >= 1 && parts[0] != []
    ensures Join(parts) == [parts[0][0]] + Join([parts[0][1..]] + parts[1..])
  {
    var p := parts[0];
    var parts' := [p[1..]] + parts[1..];
    assert p == [p[0]] + p[1..];
    if |parts| > 1 {
      var rest := Join(parts[1..]);
      assert parts'[1..] == parts[1..];
      assert Join(parts') == p[1..] + "." + rest;
      assert Join(parts) == p + "." + rest;
      assert [p[0]] + (p[1..] + "." + rest) == ([p[0]] + p[1..]) + "." + rest;
    }
  }

  // ---------------------------------------------------------------------------
  // Walking the tables.

  /** `message.get(k, None)`. */
  function Get(table: map<string, Value>, k: string): Option<Value> {
    if k in table then Some(table[k]) else None
  }

  /** A value usable as an intermediate table: a dictionary that is not empty
      (`res and isinstance(res, dict)`). */
  predicate IsDeeper(v: Option<Value>) {
    v.Some? && v.value.Table? && v.value.entries != map[]
  }

  /** The result of `__find_result_in_message` on a known locale's table: the
      entry at the last component, `None` as soon as a component is missing or
      an intermediate entry is not a non-empty table. */
  function FindIn(table: map<string, Value>, route: seq<string>): Option<Value>
    decreases |route|
  {
    if route == [] then None
    else
      var res := Get(table, route[0]);
      if |route| == 1 then res
      else if IsDeeper(res) then FindIn(res.value.entries, route[1..])
      else None
  }

  /** An unknown locale raises as soon as the first component is looked up. */
  function Find(messages: Messages, locale: string, route: seq<string>): Raises<Option<Value>> {
    if route == [] then Returns(None)
    else if locale !in messages then RaisesAttributeError
    else Returns(FindIn(messages[locale], route))
  }

  /** The table reached by following `route` through non-empty tables. */
  function Walk(table: map<string, Value>, route: seq<string>): Option<map<string, Value>>
    decreases |route|
  {
    if route == [] then Some(table)
    else
      var res := Get(table, route[0]);
      if IsDeeper(res) then Walk(res.value.entries, route[1..]) else None
  }

  /** The entry at a path is the entry at its last component, inside the table
      the other components lead to. */
  lemma {:induction false} FindInLast(table: map<string, Value>, route: seq<string>, k: string)
    ensures FindIn(table, route + [k]) == match Walk(table, route) case Some(m) => Get(m, k) case None => None
    decreases |route|
  {
    if route != [] {
      assert (route + [k])[0] == route[0];
      assert (route + [k])[1..] == route[1..] + [k];
      FindInLast(Get(table, route[0]).value.entries, route[1..], k) by {
        if !IsDeeper(Get(table, route[0])) {
          assert FindIn(table, route + [k]) == None;
          return;
        }
      }
    }
  }

  /** Looking up `p.q` is looking up `q` inside the table `p` names, provided
      that table is a non-empty dictionary. */
  lemma {:induction false} FindInCompose(table: map<string, Value>, p: seq<string>, q: seq<string>)
    requires p != [] && q != []
    requires IsDeeper(FindIn(table, p))
    ensures FindIn(table, p + q) == FindIn(FindIn(table, p).value.entries, q)
    decreases |p|
  {
    assert (p + q)[0] == p[0];
    if |p| == 1 {
      assert (p + q)[1..] == q;
    } else {
      assert (p + q)[1..] == p[1..] + q;
      FindInCompose(Get(table, p[0]).value.entries, p[1..], q);
    }
  }

  // ---------------------------------------------------------------------------
  // Translation.

  /** `fallbackLocale or locale`. */
  function FallbackOf(locale: string, fallback: Option<string>): string {
    if fallback.Some? && fallback.value != "" then fallback.value else locale
  }

  /** `t(key)`: the current locale's entry, else the fallback locale's, else
      the key. A found entry that is falsy (an empty text, an empty table) is
      still returned. */
  function Translate(messages: Messages, locale: string, fallback: string, key: string): Raises<Value> {
    var route := Split(key);
    match Find(messages, locale, route)
    case RaisesAttributeError => RaisesAttributeError
    case Returns(Some(v)) => Returns(v)
    case Returns(None) =>
      match Find(messages, fallback, route)
      case RaisesAttributeError => RaisesAttributeError
      case Returns(Some(v)) => Returns(v)
      case Returns(None) => Returns(Text(key))
  }

  /** With both locales known, translation never raises, and it returns the
      entry of the first locale that has the key's path, or the key. */
  lemma TranslateKnown(messages: Messages, locale: string, fallback: string, key: string)
    requires locale in messages && fallback in messages
    ensures var r := Translate(messages, locale, fallback, key);
      var route := Split(key);
      && r.Returns?
      && (FindIn(messages[locale], route).Some? ==> r.value == FindIn(messages[locale], route).value)
      && (FindIn(messages[locale], route).None? && FindIn(messages[fallback], route).Some? ==>
            r.value == FindIn(messages[fallback], route).value)
      && (FindIn(messages[locale], route).None? && FindIn(messages[fallback], route).None? ==>
            r.value == Text(key))
  {
  }

  /** A locale missing from the catalogue makes every translation raise,
      whatever the fallback. */
  lemma UnknownLocaleRaises(messages: Messages, locale: string, fallback: string, key: string)
    requires locale !in messages
    ensures Translate(messages, locale, fallback, key) == RaisesAttributeError
  {
  }

  /** A small catalogue: English has one message, Chinese has none, and there
      is an empty text and an empty table. */
  const Sample: Messages := map[
    "en" := map["msg" := Table(map["Hello" := Text("Hello")]), "blank" := Text(""), "none" := Table(map[])],
    "zh" := map[]]

  /** From the Chinese locale of the sample, an English message comes through
      the fallback, and a path naming a table returns the whole table. */
  lemma SampleFallback()
    ensures Translate(Sample, "zh", "en", "msg.Hello") == Returns(Text("Hello"))
    ensures Translate(Sample, "zh", "en", "msg") == Returns(Table(map["Hello" := Text("Hello")]))
  {
    var route := ["msg", "Hello"];
    SplitJoin(route);
    assert Join(route) == "msg.Hello";
    var en := Sample["en"];
    assert FindIn(Sample["zh"], route) == None;
    assert Get(en, "msg") == Some(Table(map["Hello" := Text("Hello")]));
    assert FindIn(en, route) == FindIn(map["Hello" := Text("Hello")], route[1..]);
    assert route[1..] == ["Hello"];
    SplitJoin(["msg"]);
    assert Join(["msg"]) == "msg";
  }

  /** After switching to a locale the catalogue lacks, the same key raises. */
  lemma SampleUnknownLocale()
    ensures Translate(Sample, "fr", "en", "msg.Hello") == RaisesAttributeError
  {
    SplitJoin(["msg", "Hello"]);
    assert Join(["msg", "Hello"]) == "msg.Hello";
  }

  /** A path that runs on through a text is not found anywhere, so the key
      itself is returned. */
  lemma SampleThroughText()
    ensures Translate(Sample, "zh", "en", "msg.Hello.x") == Returns(Text("msg.Hello.x"))
  {
    var route := ["msg", "Hello", "x"];
    SplitJoin(route);
    assert Join(route) == "msg.Hello.x";
    var en := Sample["en"];
    assert FindIn(Sample["zh"], route) == None;
    assert Get(en, "msg") == Some(Table(map["Hello" := Text("Hello")]));
    assert FindIn(en, route) == FindIn(map["Hello" := Text("Hello")], route[1..]);
    assert route[1..] == ["Hello", "x"];
    assert FindIn(map["Hello" := Text("Hello")], ["Hello", "x"]) == None;
  }

  /** Neither does a path that runs on through an empty table. */
  lemma SampleThroughEmptyTable()
    ensures Translate(Sample, "zh", "en", "none.x") == Returns(Text("none.x"))
  {
    SplitJoin(["none", "x"]);
    assert Join(["none", "x"]) == "none.x";
    assert Get(Sample["en"], "none") == Some(Table(map[]));
  }

  /** Falsy entries found at the last component are returned as they are. */
  lemma SampleFalsy()
    ensures Translate(Sample, "zh", "en", "blank") == Returns(Text(""))
    ensures Translate(Sample, "zh", "en", "none") == Returns(Table(map[]))
  {
    SplitJoin(["blank"]);
    assert Join(["blank"]) == "blank";
    SplitJoin(["none"]);
    assert Join(["none"]) == "none";
  }

  // ---------------------------------------------------------------------------
  // The translator object.

  class Translator {
    var locale: string
    const fallbackLocale: string
    const messages: Messages

    /** The constructor asserts that both locales are in the catalogue. */
    constructor (locale: string, fallback: Option<string>, messages: Messages)
      requires locale in messages
      requires FallbackOf(locale, fallback) in messages
      ensures this.locale == locale && fallbackLocale == FallbackOf(locale, fallback)
      ensures this.messages == messages
      ensures Valid()
    {
      this.locale := locale;
      fallbackLocale := FallbackOf(locale, fallback);
      this.messages := messages;
    }

    /** Only the fallback locale is guaranteed: `set_locale` does not check. */
    predicate Valid()
      reads this
    {
      fallbackLocale in messages
    }

    method SetLocale(locale: string)
      modifies this`locale
      ensures this.locale == locale
    {
      this.locale := locale;
    }

    /** `__find_result_in_message`. */
    method FindResult(locale: string, route: seq<string>) returns (r: Raises<Option<Value>>)
      ensures r == Find(messages, locale, route)
    {
      var res: Option<Value> := None;
      var message: Option<map<string, Value>> := if locale in messages then Some(messages[locale]) else None;
      var idx := 0;
      while idx < |route|
        invariant 0 <= idx <= |route|
        invariant route != [] ==> idx < |route|
        invariant message.None? ==> idx == 0 && locale !in messages
        invariant message.Some? ==> locale in messages && FindIn(messages[locale], route) == FindIn(message.value, route[idx..])
        invariant route == [] ==> res == None
      {
        if message.None? {
          return RaisesAttributeError;
        }
        res := Get(message.value, route[idx]);
        if idx == |route| - 1 {
          break;
        }
        if !IsDeeper(res) {
          res := None;
          break;
        }
        message := Some(res.value.entries);
        assert route[idx..][1..] == route[idx + 1..];
        idx := idx + 1;
      }
      r := Returns(res);
    }

    /** `t`. */
    method T(key: string) returns (r: Raises<Value>)
      ensures r == Translate(messages, locale, fallbackLocale, key)
      ensures Valid() && locale in messages ==> r.Returns?
    {
      var route := Split(key);
      var res := FindResult(locale, route);
      if res == Returns(None) {
        res := FindResult(fallbackLocale, route);
      }
      match res
      case RaisesAttributeError => return RaisesAttributeError;
      case Returns(None) => return Returns(Text(key));
      case Returns(Some(v)) => return Returns(v);
    }

    /** `__call__`: the object called on a key is `t`. */
    method Call(key: string) returns (r: Raises<Value>)
      ensures r == Translate(messages, locale, fallbackLocale, key)
    {
      r := T(key);
    }
  }
}
