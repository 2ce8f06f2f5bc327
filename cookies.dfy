/** The cookie helpers of the theme provider (`getCookie`, `setCookie`) and the
    browser's cookie store they talk to through `document.cookie`. */
module Cookies {
  import opened Wrappers
  import opened Strings
  import UriComponent

  // ---------------------------------------------------------------------------
  // getCookie: a left fold over the `; `-separated entries of `document.cookie`
  // ---------------------------------------------------------------------------

  /** `v.split('=')[0]`: the name part of a cookie entry. */
  function EntryName(entry: string): string {
    Split(entry, "=")[0]
  }

  /** `decodeURIComponent(v.split('=')[1])`; a missing second part is `undefined`,
      which `decodeURIComponent` turns into the text "undefined". */
  function EntryValue(entry: string): string {
    var parts := Split(entry, "=");
    if |parts| > 1 then UriComponent.Decode(parts[1]) else "undefined"
  }

  /** One step of the fold: a matching entry replaces the accumulator. */
  function ReadEntry(acc: string, entry: string, name: string): string {
    if EntryName(entry) == name then EntryValue(entry) else acc
  }

  /** `entries.reduce((r, v) => ..., acc)`. */
  function Reduce(entries: seq<string>, name: string, acc: string): string
    decreases |entries|
  {
    if entries == [] then acc else Reduce(entries[1..], name, ReadEntry(acc, entries[0], name))
  }

  /** `getCookie(name)` on the text `cookie` of `document.cookie`. */
  function GetCookie(cookie: string, name: string): string {
    Reduce(Split(cookie, "; "), name, "")
  }

  /** Reference reading: the value of the LAST entry whose name is exactly `name`. */
  function LastMatch(entries: seq<string>, name: string): Option<string>
    decreases |entries|
  {
    if entries == [] then None
    else match LastMatch(entries[1..], name)
      case Some(v) => Some(v)
      case None => if EntryName(entries[0]) == name then Some(EntryValue(entries[0])) else None
  }

  lemma {:induction false} ReduceLastMatch(entries: seq<string>, name: string, acc: string)
    ensures Reduce(entries, name, acc) == LastMatch(entries, name).GetOr(acc)
    decreases |entries|
  {
    if entries != [] {
      ReduceLastMatch(entries[1..], name, ReadEntry(acc, entries[0], name));
    }
  }

  /** `getCookie` returns the decoded value of the last entry named exactly `name`, and '' when there is none. */
  lemma GetCookieLastMatch(cookie: string, name: string)
    ensures GetCookie(cookie, name) == LastMatch(Split(cookie, "; "), name).GetOr("")
  {
    ReduceLastMatch(Split(cookie, "; "), name, "");
  }

  /** `setCookie(name, value, days)`: the text assigned to `document.cookie`; `expires`
      is the `toUTCString()` of the expiry date, taken as given. */
  function SetCookieText(name: string, value: string, expires: string): string {
    name + "=" + UriComponent.Encode(value) + "; expires=" + expires + "; path=/; SameSite=Strict"
  }

  // ---------------------------------------------------------------------------
  // The browser's cookie store, for one site and path `/`
  // ---------------------------------------------------------------------------

  datatype Cookie = Cookie(name: string, value: string)
  type Jar = seq<Cookie>

  /** A name the browser accepts: non-empty, up to the first `=` and before any `;`. */
  predicate ValidName(n: string) {
    n != [] && '=' !in n && ';' !in n
  }

  function Names(jar: Jar): set<string>
    decreases |jar|
  {
    if jar == [] then {} else {jar[0].name} + Names(jar[1..])
  }

  /** What the browser keeps: valid names, values without `;`, one cookie per name. */
  predicate ValidJar(jar: Jar)
    decreases |jar|
  {
    jar == [] ||
    (ValidName(jar[0].name) && ';' !in jar[0].value && jar[0].name !in Names(jar[1..]) && ValidJar(jar[1..]))
  }

  function EntryText(c: Cookie): string {
    c.name + "=" + c.value
  }

  function Entries(jar: Jar): (es: seq<string>)
    ensures |es| == |jar|
    decreases |jar|
  {
    if jar == [] then [] else [EntryText(jar[0])] + Entries(jar[1..])
  }

  /** Reading `document.cookie`: the entries in creation order, joined with `; `. */
  function CookieText(jar: Jar): string {
    Join(Entries(jar), "; ")
  }

  /** The raw value stored under `name`, if any. */
  function Lookup(jar: Jar, name: string): Option<string>
    decreases |jar|
  {
    if jar == [] then None
    else match Lookup(jar[1..], name)
      case Some(v) => Some(v)
      case None => if jar[0].name == name then Some(jar[0].value) else None
  }

  /** What `getCookie` makes of a raw stored value: the text before any `=`, decoded. */
  function CookieValue(raw: string): string {
    UriComponent.Decode(Split(raw, "=")[0])
  }

  /** The cookie-pair of a `document.cookie` assignment (up to the first `;`,
      split at its first `=`); `None` when the browser ignores the assignment. */
  function ParseSetCookie(text: string): (r: Option<Cookie>)
    ensures r.Some? ==> ValidName(r.value.name) && ';' !in r.value.value
  {
    var pair := Split(text, ";")[0];
    SplitHead(text, ';');
    match IndexOf(pair, "=")
    case None => None
    case Some(i) =>
      if i == 0 then None
      else
        assert forall j :: 0 <= j < i ==> pair[..i][j] == pair[j] && (OccursAt(pair, "=", j) <==> pair[j] == '=') by {
          forall j | 0 <= j < i { OccursAtChar(pair, '=', j); }
        }
        Some(Cookie(pair[..i], pair[i + 1..]))
  }

  /** Replace the cookie with the same name in place, or append a new one. */
  function Store(jar: Jar, c: Cookie): Jar
    decreases |jar|
  {
    if jar == [] then [c]
    else if jar[0].name == c.name then [c] + jar[1..]
    else [jar[0]] + Store(jar[1..], c)
  }

  /** Assigning `text` to `document.cookie` (attributes are read but not kept). */
  function WriteCookie(jar: Jar, text: string): Jar {
    match ParseSetCookie(text)
    case None => jar
    case Some(c) => Store(jar, c)
  }

  /** `getCookie(name)` against the store. */
  function ReadCookie(jar: Jar, name: string): string {
    GetCookie(CookieText(jar), name)
  }

  // ---------------------------------------------------------------------------
  // Lemmas
  // ---------------------------------------------------------------------------

  lemma {:induction false} LookupAbsent(jar: Jar, name: string)
    requires name !in Names(jar)
    ensures Lookup(jar, name) == None
    decreases |jar|
  {
    if jar != [] { LookupAbsent(jar[1..], name); }
  }

  lemma {:induction false} StoreNames(jar: Jar, c: Cookie)
    ensures Names(Store(jar, c)) == Names(jar) + {c.name}
    decreases |jar|
  {
    if jar != [] && jar[0].name != c.name {
      StoreNames(jar[1..], c);
    }
  }

  /** Storing keeps the store valid. */
  lemma {:induction false} StoreValid(jar: Jar, c: Cookie)
    requires ValidJar(jar) && ValidName(c.name) && ';' !in c.value
    ensures ValidJar(Store(jar, c))
    decreases |jar|
  {
    if jar != [] && jar[0].name != c.name {
      StoreValid(jar[1..], c);
      StoreNames(jar[1..], c);
    }
  }

  /** After storing `c`, its name reads `c.value` and every other name reads as before. */
  lemma {:induction false} StoreLookup(jar: Jar, c: Cookie, m: string)
    requires ValidJar(jar)
    ensures Lookup(Store(jar, c), m) == if m == c.name then Some(c.value) else Lookup(jar, m)
    decreases |jar|
  {
    if jar == [] {
    } else if jar[0].name == c.name {
      if m == c.name { LookupAbsent(jar[1..], m); }
    } else {
      StoreLookup(jar[1..], c, m);
    }
  }

  lemma EntryTextParts(c: Cookie)
    requires ValidName(c.name)
    ensures EntryName(EntryText(c)) == c.name
    ensures EntryValue(EntryText(c)) == CookieValue(c.value)
  {
    SplitAtFirst(c.name, '=', c.value);
  }

  lemma {:induction false} EntriesLastMatch(jar: Jar, name: string)
    requires ValidJar(jar)
    ensures LastMatch(Entries(jar), name) == match Lookup(jar, name) { case None => None case Some(raw) => Some(CookieValue(raw)) }
    decreases |jar|
  {
    if jar != [] {
      EntriesLastMatch(jar[1..], name);
      EntryTextParts(jar[0]);
      assert Entries(jar)[1..] == Entries(jar[1..]);
    }
  }

  lemma {:induction false} EntriesSemicolonFree(jar: Jar)
    requires ValidJar(jar)
    ensures forall k :: 0 <= k < |Entries(jar)| ==> ';' !in Entries(jar)[k]
    decreases |jar|
  {
    if jar != [] {
      EntriesSemicolonFree(jar[1..]);
      assert Entries(jar) == [EntryText(jar[0])] + Entries(jar[1..]);
    }
  }

  /** `getCookie` on the browser's `document.cookie` reads the stored value of `name`, or ''. */
  lemma ReadCookieLookup(jar: Jar, name: string)
    requires ValidJar(jar) && name != ""
    ensures ReadCookie(jar, name) == match Lookup(jar, name) { case None => "" case Some(raw) => CookieValue(raw) }
  {
    if jar == [] {
      assert Split("", "; ") == [""];
      assert Split("", "=") == [""];
    } else {
      EntriesSemicolonFree(jar);
      SplitJoin(Entries(jar), "; ");
      ReduceLastMatch(Entries(jar), name, "");
      EntriesLastMatch(jar, name);
    }
  }

  /** The browser reads back exactly the pair `setCookie` wrote. */
  lemma ParseSetCookieText(name: string, value: string, expires: string)
    requires ValidName(name)
    ensures ParseSetCookie(SetCookieText(name, value, expires)) == Some(Cookie(name, UriComponent.Encode(value)))
  {
    var e := UriComponent.Encode(value);
    UriComponent.EncodeDelimiterFree(value);
    var pair := name + "=" + e;
    var rest := " expires=" + expires + "; path=/; SameSite=Strict";
    assert SetCookieText(name, value, expires) == pair + [';'] + rest;
    assert ';' !in name + "=";
    SplitAtFirst(pair, ';', rest);
    IndexOfAfter(name, "=", e);
    assert pair[..|name|] == name;
    assert pair[|name| + 1..] == e;
  }

  /** Any assignment to `document.cookie` leaves the store valid. */
  lemma WriteCookieValid(jar: Jar, text: string)
    requires ValidJar(jar)
    ensures ValidJar(WriteCookie(jar, text))
  {
    match ParseSetCookie(text)
    case None =>
    case Some(c) => StoreValid(jar, c);
  }

  /** Round trip: after `setCookie(name, value)`, `getCookie(name)` is `value`, and
      every other cookie reads as before. */
  lemma ReadAfterSetCookie(jar: Jar, name: string, value: string, expires: string)
    requires ValidJar(jar) && ValidName(name)
    ensures ValidJar(WriteCookie(jar, SetCookieText(name, value, expires)))
    ensures ReadCookie(WriteCookie(jar, SetCookieText(name, value, expires)), name) == value
    ensures forall m :: m != name && m != "" ==>
      ReadCookie(WriteCookie(jar, SetCookieText(name, value, expires)), m) == ReadCookie(jar, m)
  {
    var e := UriComponent.Encode(value);
    var c := Cookie(name, e);
    ParseSetCookieText(name, value, expires);
    var jar' := Store(jar, c);
    assert WriteCookie(jar, SetCookieText(name, value, expires)) == jar';
    UriComponent.EncodeDelimiterFree(value);
    StoreValid(jar, c);
    StoreLookup(jar, c, name);
    ReadCookieLookup(jar', name);
    SplitAbsent(e, '=');
    UriComponent.DecodeEncode(value);
    forall m | m != name && m != ""
      ensures ReadCookie(jar', m) == ReadCookie(jar, m)
    {
      StoreLookup(jar, c, m);
      ReadCookieLookup(jar', m);
      ReadCookieLookup(jar, m);
    }
  }

  /** An entry without `=` is named by all of its text, and its value reads as the text
      "undefined" (`parts[1]` is `undefined`). */
  lemma BareEntryParts(e: string)
    requires '=' !in e
    ensures EntryName(e) == e && EntryValue(e) == "undefined"
  {
    SplitAbsent(e, '=');
  }

  /** A last entry without `=` decides the read of its own name. */
  lemma {:induction false} LastMatchBareEntry(entries: seq<string>, e: string)
    requires '=' !in e
    ensures LastMatch(entries + [e], e) == Some("undefined")
    decreases |entries|
  {
    if entries == [] {
      BareEntryParts(e);
      assert LastMatch([e][1..], e) == None;
    } else {
      LastMatchBareEntry(entries[1..], e);
      assert (entries + [e])[1..] == entries[1..] + [e];
    }
  }

  /** `getCookie(name)` on a cookie text whose last entry is the bare `name` is "undefined". */
  lemma BareEntryReadsUndefined(entries: seq<string>, e: string)
    requires '=' !in e && ';' !in e
    requires forall k :: 0 <= k < |entries| ==> ';' !in entries[k]
    ensures GetCookie(Join(entries + [e], "; "), e) == "undefined"
  {
    var parts := entries + [e];
    assert forall k :: 0 <= k < |parts| ==> ';' !in parts[k] by {
      forall k | 0 <= k < |parts| ensures ';' !in parts[k] {
        if k < |entries| { assert parts[k] == entries[k]; }
      }
    }
    SplitJoin(parts, "; ");
    GetCookieLastMatch(Join(parts, "; "), e);
    LastMatchBareEntry(entries, e);
  }
}
