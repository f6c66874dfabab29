/**
 * Client helpers of the server API (src/api/sentenceApi.ts): turning server-relative resource URLs
 * into absolute ones, the fallback session id generator, and the per-tab player id kept in session
 * storage. The page location and the random source are parameters.
 */
module SentenceApi {
  import opened Wrappers

  /** The API base: the page's protocol and host name, port 5000. */
  function ApiBase(protocol: string, hostname: string): (base: string)
    ensures base == protocol + "//" + hostname + ":5000"
  {
    protocol + "//" + hostname + ":5000"
  }

  predicate StartsWith(s: string, prefix: string) {
    |prefix| <= |s| && s[..|prefix|] == prefix
  }

  predicate EndsWith(s: string, suffix: string) {
    |suffix| <= |s| && s[|s| - |suffix|..] == suffix
  }

  predicate IsAbsolute(url: string) {
    StartsWith(url, "http://") || StartsWith(url, "https://")
  }

  /**
   * `toAbsoluteServerUrl`: absolute http(s) URLs are kept, a rooted path is appended to the base,
   * and any other path is appended after a "/".
   */
  function ToAbsoluteServerUrl(apiBase: string, url: string): (r: string)
    ensures IsAbsolute(url) ==> r == url
    ensures !IsAbsolute(url) && StartsWith(url, "/") ==> r == apiBase + url
    ensures !IsAbsolute(url) && !StartsWith(url, "/") ==> r == apiBase + "/" + url
  {
    if IsAbsolute(url) then url
    else if StartsWith(url, "/") then apiBase + url
    else apiBase + "/" + url
  }

  /** The result always ends with the URL it was given. */
  lemma AbsoluteEndsWithUrl(apiBase: string, url: string)
    ensures EndsWith(ToAbsoluteServerUrl(apiBase, url), url)
  {
    var r := ToAbsoluteServerUrl(apiBase, url);
    assert r[|r| - |url|..] == url;
  }

  lemma PrefixOfConcat(a: string, b: string, prefix: string)
    requires StartsWith(a, prefix)
    ensures StartsWith(a + b, prefix)
  {
    assert (a + b)[..|prefix|] == a[..|prefix|];
  }

  /** A page served over http or https gives an absolute base. */
  lemma BaseIsAbsolute(protocol: string, hostname: string)
    requires protocol == "http:" || protocol == "https:"
    ensures IsAbsolute(ApiBase(protocol, hostname))
  {
    var base := ApiBase(protocol, hostname);
    if protocol == "http:" {
      assert base[..7] == "http://";
    } else {
      assert base[..8] == "https://";
    }
  }

  /** With an absolute base, converting an already converted URL changes nothing. */
  lemma ToAbsoluteIdempotent(apiBase: string, url: string)
    requires IsAbsolute(apiBase)
    ensures ToAbsoluteServerUrl(apiBase, ToAbsoluteServerUrl(apiBase, url)) == ToAbsoluteServerUrl(apiBase, url)
  {
    if !IsAbsolute(url) {
      if StartsWith(apiBase, "http://") {
        PrefixOfConcat(apiBase, url, "http://");
        PrefixOfConcat(apiBase, "/" + url, "http://");
        assert apiBase + "/" + url == apiBase + ("/" + url);
      } else {
        PrefixOfConcat(apiBase, url, "https://");
        PrefixOfConcat(apiBase, "/" + url, "https://");
        assert apiBase + "/" + url == apiBase + ("/" + url);
      }
    }
  }

  /** The fallback id template: 'x' takes any hex digit, 'y' the variant digit. */
  const UuidTemplate: string := "xxxxxxxx-xxxx-4xxx-yxxx-xxxxxxxxxxxx"

  const HexDigits: string := "0123456789abcdef"

  predicate IsLowerHex(ch: char) {
    ('0' <= ch <= '9') || ('a' <= ch <= 'f')
  }

  /** `v.toString(16)` for 0 <= v < 16. */
  function HexDigit(v: int): (ch: char)
    requires 0 <= v < 16
    ensures IsLowerHex(ch)
  {
    HexDigits[v]
  }

  /** `(Math.random() * 16) | 0` for a draw in [0, 1): the truncation is the floor on non-negative values. */
  function Nibble(draw: real): (r: int)
    requires 0.0 <= draw < 1.0
    ensures 0 <= r < 16
  {
    (draw * 16.0).Floor
  }

  /** `(r & 0x3) | 0x8`: the two low bits of r with the top bit of the nibble set. */
  function VariantNibble(r: int): (v: int)
    requires 0 <= r < 16
    ensures 8 <= v <= 11 && v == 8 + r % 4
  {
    (((r as bv8) & 0x3) | 0x8) as int
  }

  /** The replacement for a template character, given the draw made for it. */
  function Filled(c: char, draw: real): (ch: char)
    requires 0.0 <= draw < 1.0
  {
    if c == 'x' then HexDigit(Nibble(draw))
    else if c == 'y' then HexDigit(VariantNibble(Nibble(draw)))
    else c
  }

  predicate IsPlaceholder(c: char) {
    c == 'x' || c == 'y'
  }

  /** Character j of the template, by position: dashes, the version digit, the variant slot, else 'x'. */
  function TemplateChar(j: nat): char {
    if j == 8 || j == 13 || j == 18 || j == 23 then '-'
    else if j == 14 then '4'
    else if j == 19 then 'y'
    else 'x'
  }

  /** The template literal spelled out position by position. */
  lemma TemplateAt()
    ensures |UuidTemplate| == 36
    ensures forall j :: 0 <= j < 36 ==> UuidTemplate[j] == TemplateChar(j)
  {
  }

  /** Number of placeholders in the first n characters of the template: the draws used so far. */
  function DrawsBefore(n: nat): (k: nat)
    requires n <= 36
    ensures k <= n
  {
    if n == 0 then 0 else DrawsBefore(n - 1) + (if IsPlaceholder(TemplateChar(n - 1)) then 1 else 0)
  }

  lemma {:induction false} DrawsMonotone(m: nat, n: nat)
    requires m <= n <= 36
    ensures DrawsBefore(m) <= DrawsBefore(n)
    decreases n - m
  {
    if m < n {
      DrawsMonotone(m, n - 1);
    }
  }

  /** A run of placeholders uses one draw per character. */
  lemma {:induction false} PlaceholderRun(m: nat, n: nat)
    requires m <= n <= 36 && forall j :: m <= j < n ==> IsPlaceholder(TemplateChar(j))
    ensures DrawsBefore(n) == DrawsBefore(m) + (n - m)
    decreases n - m
  {
    if m < n {
      PlaceholderRun(m, n - 1);
    }
  }

  /** The template holds 31 placeholders (30 'x' and the 'y'); the 'y' takes draw 15. */
  lemma TemplateDraws()
    ensures DrawsBefore(36) == 31 && DrawsBefore(19) == 15
  {
    PlaceholderRun(0, 8);
    PlaceholderRun(9, 13);
    PlaceholderRun(15, 18);
    PlaceholderRun(20, 23);
    PlaceholderRun(24, 36);
  }

  predicate UnitDraws(draws: seq<real>) {
    forall k :: 0 <= k < |draws| ==> 0.0 <= draws[k] < 1.0
  }

  /** Character j of the generated id: a placeholder filled from its draw, any other template character kept. */
  function UuidChar(draws: seq<real>, j: nat): char
    requires UnitDraws(draws) && |draws| >= 31 && j < 36
  {
    TemplateDraws();
    DrawsMonotone(j + 1, 36);
    if IsPlaceholder(TemplateChar(j)) then Filled(TemplateChar(j), draws[DrawsBefore(j)]) else TemplateChar(j)
  }

  /**
   * `generateUUID` without a native generator: the template's placeholders are replaced left to right,
   * each with the digit from one random draw. Draw k is used for the k-th placeholder. The template is
   * read through TemplateChar, which spells it position by position (TemplateAt).
   */
  method GenerateUuid(draws: seq<real>) returns (id: string)
    requires UnitDraws(draws) && |draws| >= 31
    ensures |id| == 36
    ensures forall j :: 0 <= j < 36 ==> id[j] == UuidChar(draws, j)
  {
    id := [];
    var k := 0;
    for j := 0 to 36
      invariant |id| == j && k == DrawsBefore(j) && k <= 31
      invariant forall i :: 0 <= i < j ==> id[i] == UuidChar(draws, i)
    {
      DrawsBelow(j);
      var c := TemplateChar(j);
      if IsPlaceholder(c) {
        var ch := Filled(c, draws[k]);
        UuidCharAt(draws, j);
        id := id + [ch];
        k := k + 1;
      } else {
        UuidCharAt(draws, j);
        id := id + [c];
      }
    }
  }

  /** Character j of the id from the template character and the draws made before it. */
  lemma UuidCharAt(draws: seq<real>, j: nat)
    requires UnitDraws(draws) && |draws| >= 31 && j < 36
    ensures DrawsBefore(j) < 31 || !IsPlaceholder(TemplateChar(j))
    ensures IsPlaceholder(TemplateChar(j)) ==>
      DrawsBefore(j) < 31 && UuidChar(draws, j) == Filled(TemplateChar(j), draws[DrawsBefore(j)])
    ensures !IsPlaceholder(TemplateChar(j)) ==> UuidChar(draws, j) == TemplateChar(j)
  {
    DrawsBelow(j);
  }

  /** The draws made up to and including character j stay within the 31 the template uses. */
  lemma DrawsBelow(j: nat)
    requires j < 36
    ensures DrawsBefore(j + 1) <= 31
  {
    TemplateDraws();
    DrawsMonotone(j + 1, 36);
  }

  /**
   * The generated id has the version-4 layout of section 4.4 of RFC 4122: 36 characters, dashes at
   * 8, 13, 18 and 23, version digit 4 at 14, a variant digit 8, 9, a or b at 19 (section 4.1.1), and
   * lower-case hex digits everywhere else.
   */
  lemma UuidLayout(draws: seq<real>, id: string)
    requires UnitDraws(draws) && |draws| >= 31
    requires |id| == 36 && forall j :: 0 <= j < 36 ==> id[j] == UuidChar(draws, j)
    ensures id[8] == '-' && id[13] == '-' && id[18] == '-' && id[23] == '-' && id[14] == '4'
    ensures id[19] in "89ab"
    ensures forall j :: 0 <= j < 36 && j !in {8, 13, 14, 18, 19, 23} ==> IsLowerHex(id[j])
  {
    TemplateDraws();
    var v := VariantNibble(Nibble(draws[15]));
    assert id[19] == HexDigits[v];
  }

  /** The browser's session storage: string items by key. */
  class SessionStorage {
    var items: map<string, string>

    constructor (initial: map<string, string>)
      ensures items == initial
    {
      items := initial;
    }

    /** `getItem`: the stored value, or none. */
    method GetItem(key: string) returns (value: Option<string>)
      ensures value == (if key in items then Some(items[key]) else None)
    {
      value := if key in items then Some(items[key]) else None;
    }

    method SetItem(key: string, value: string)
      modifies this
      ensures items == old(items)[key := value]
    {
      items := items[key := value];
    }
  }

  const PlayerIdKey: string := "player_id"

  /** The player id a storage state yields: a stored non-empty id, otherwise the freshly generated one. */
  function TabPlayerId(items: map<string, string>, freshId: string): (id: string)
    ensures PlayerIdKey in items && items[PlayerIdKey] != "" ==> id == items[PlayerIdKey]
    ensures !(PlayerIdKey in items && items[PlayerIdKey] != "") ==> id == freshId
  {
    if PlayerIdKey in items && items[PlayerIdKey] != "" then items[PlayerIdKey] else freshId
  }

  /**
   * `getTabPlayerId`: reuse the stored id; when it is missing or empty (both falsy), store the new id
   * and return it. `freshId` is what `generateUUID` would return.
   */
  method GetTabPlayerId(storage: SessionStorage, freshId: string) returns (id: string)
    modifies storage
    ensures id == TabPlayerId(old(storage.items), freshId)
    ensures storage.items == old(storage.items)[PlayerIdKey := id]
  {
    var stored := storage.GetItem(PlayerIdKey);
    if stored.Some? && stored.value != "" {
      id := stored.value;
    } else {
      id := freshId;
      storage.SetItem(PlayerIdKey, id);
    }
  }

  /** Once an id is handed out, every later call returns it again, whatever id it would have generated. */
  lemma PlayerIdStable(items: map<string, string>, freshId: string, laterId: string)
    requires freshId != ""
    ensures var id := TabPlayerId(items, freshId);
      TabPlayerId(items[PlayerIdKey := id], laterId) == id
  {
  }
}
