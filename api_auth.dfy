/** The HTTP service's authentication: the `Authorization: tma <initData>`
    header and the Telegram Mini App signature check. The query string is
    parsed as `parse_qsl` does, the pairs become a dictionary, the `hash`
    field is taken out, the remaining `key=value` lines are sorted and
    joined with newlines, and the received hash must equal the hex HMAC of
    that text under the key HMAC("WebAppData", bot token). HMAC-SHA256,
    UTF-8 encoding, percent-decoding and JSON decoding are parameters. */
module Auth {
  import opened Common
  import opened Text

  /** An HTTP answer: a value, or an error status with its `detail`. */
  datatype Reply<T> = Ok(value: T) | Fail(status: int, detail: string)

  /** The dictionary `verify_telegram_init_data` returns as `current_user`. */
  datatype TgUser = TgUser(userId: Option<int>, username: Option<string>, firstName: Option<string>,
                           lastName: Option<string>, languageCode: Option<string>)

  /** What `json.loads(...)` followed by the `.get` calls gives: the user,
      or the exception's message. */
  datatype Decoded = Decoded(user: TgUser) | JsonError(message: string)

  /** The library functions the check calls. */
  datatype Primitives = Primitives(
    hmacSha256: (seq<byte>, seq<byte>) -> seq<byte>,
    utf8: string -> seq<byte>,
    unquote: string -> string,
    decodeUser: string -> Decoded)

  type Pair = (string, string)

  // ------------------------------------------------------------ parse_qsl

  /** One `&`-separated piece: skipped when empty, when it has no `=`, or
      when its value is empty; otherwise split at the first `=`, each side
      with `+` read as a space and then percent-decoded. */
  function QueryPair(piece: string, unquote: string -> string): Option<Pair> {
    var i := FirstIndex(piece, '=');
    if i + 1 >= |piece| then None
    else Some((unquote(ReplaceChar(piece[..i], '+', ' ')), unquote(ReplaceChar(piece[i + 1..], '+', ' '))))
  }

  function QueryPairs(pieces: seq<string>, unquote: string -> string): seq<Pair> {
    if pieces == [] then []
    else
      var rest := QueryPairs(pieces[1..], unquote);
      match QueryPair(pieces[0], unquote)
      case Some(p) => [p] + rest
      case None => rest
  }

  /** `parse_qsl(init_data)`. */
  function ParseQsl(s: string, unquote: string -> string): seq<Pair> {
    QueryPairs(Split(s, '&'), unquote)
  }

  /** A piece with no `+` and no percent escapes reads back as itself. */
  lemma ReplaceAbsent(s: string)
    requires '+' !in s
    ensures ReplaceChar(s, '+', ' ') == s
  {
  }

  /** Pairs written out as `k=v&k=v…` parse back to the same pairs, as long
      as no key holds `=`, no text holds `&` or `+`, no value is empty and
      decoding leaves every text as it is. */
  lemma {:induction false} QueryRoundTrip(pairs: seq<Pair>, unquote: string -> string)
    requires forall p :: p in pairs ==>
      && '&' !in p.0 && '&' !in p.1 && '=' !in p.0 && '+' !in p.0 && '+' !in p.1
      && p.1 != [] && unquote(p.0) == p.0 && unquote(p.1) == p.1
    ensures ParseQsl(Join(Lines(pairs), "&"), unquote) == pairs
  {
    var ls := Lines(pairs);
    if pairs == [] {
      assert Split("", '&') == [""];
    } else {
      forall i | 0 <= i < |ls| ensures '&' !in ls[i] {
        assert pairs[i] in pairs;
      }
      SplitOfJoin(ls, '&');
      LinesParse(pairs, unquote);
    }
  }

  /** One written pair `k=v` reads back as that pair. */
  lemma PiecePair(p: Pair, unquote: string -> string)
    requires '=' !in p.0 && '+' !in p.0 && '+' !in p.1
    requires p.1 != [] && unquote(p.0) == p.0 && unquote(p.1) == p.1
    ensures QueryPair(p.0 + "=" + p.1, unquote) == Some(p)
  {
    var piece := p.0 + "=" + p.1;
    FirstIndexAfter(p.0, '=', p.1);
    assert piece[..|p.0|] == p.0 && piece[|p.0| + 1..] == p.1;
    ReplaceAbsent(p.0);
    ReplaceAbsent(p.1);
  }

  lemma {:induction false} LinesParse(pairs: seq<Pair>, unquote: string -> string)
    requires forall p :: p in pairs ==>
      && '=' !in p.0 && '+' !in p.0 && '+' !in p.1
      && p.1 != [] && unquote(p.0) == p.0 && unquote(p.1) == p.1
    ensures QueryPairs(Lines(pairs), unquote) == pairs
  {
    if pairs != [] {
      var p := pairs[0];
      assert p in pairs;
      PiecePair(p, unquote);
      assert Lines(pairs)[0] == p.0 + "=" + p.1;
      assert Lines(pairs)[1..] == Lines(pairs[1..]);
      assert forall q :: q in pairs[1..] ==> q in pairs;
      LinesParse(pairs[1..], unquote);
      assert pairs == [p] + pairs[1..];
    }
  }

  // ------------------------------------------------------------ the dictionary

  /** `dict(pairs)` as a map: the last value given for a key wins. */
  function DictOf(pairs: seq<Pair>): map<string, string> {
    if pairs == [] then map[]
    else DictOf(pairs[..|pairs| - 1])[pairs[|pairs| - 1].0 := pairs[|pairs| - 1].1]
  }

  predicate KeysDistinct(items: seq<Pair>) {
    forall i, j :: 0 <= i < j < |items| ==> items[i].0 != items[j].0
  }

  /** Storing one key in a dictionary's item list: an existing key keeps its
      place and takes the new value, a new key goes at the end. */
  function Put(items: seq<Pair>, k: string, v: string): seq<Pair> {
    if items == [] then [(k, v)]
    else if items[0].0 == k then [(k, v)] + items[1..]
    else [items[0]] + Put(items[1..], k, v)
  }

  /** `dict(pairs).items()` in the dictionary's insertion order. */
  function ItemsOf(pairs: seq<Pair>): seq<Pair> {
    if pairs == [] then []
    else Put(ItemsOf(pairs[..|pairs| - 1]), pairs[|pairs| - 1].0, pairs[|pairs| - 1].1)
  }

  /** An element other than the head is in the tail. */
  lemma InTail<T>(s: seq<T>, y: T)
    requires y in s && y != s[0]
    ensures y in s[1..]
  {
    var m :| 0 <= m < |s| && s[m] == y;
    assert s[1..][m - 1] == y;
  }

  lemma {:induction false} PutMembers(items: seq<Pair>, k: string, v: string)
    requires KeysDistinct(items)
    ensures forall y :: y in Put(items, k, v) <==> y == (k, v) || (y in items && y.0 != k)
  {
    if items != [] {
      var r := Put(items, k, v);
      if items[0].0 != k {
        assert KeysDistinct(items[1..]) by {
          forall i, j | 0 <= i < j < |items[1..]| ensures items[1..][i].0 != items[1..][j].0 {
            assert items[1..][i] == items[i + 1] && items[1..][j] == items[j + 1];
          }
        }
        PutMembers(items[1..], k, v);
        forall y | y in items && y.0 != k && y != items[0] ensures y in r {
          InTail(items, y);
        }
      } else {
        forall y | y in items && y.0 != k ensures y in r {
          InTail(items, y);
        }
        forall y | y in items[1..] ensures y.0 != k {
          var m :| 0 <= m < |items[1..]| && items[1..][m] == y;
          assert items[m + 1] == y;
        }
      }
    }
  }

  lemma {:induction false} PutSpec(items: seq<Pair>, k: string, v: string)
    requires KeysDistinct(items)
    ensures KeysDistinct(Put(items, k, v))
    ensures forall y :: y in Put(items, k, v) <==> y == (k, v) || (y in items && y.0 != k)
  {
    PutMembers(items, k, v);
    if items != [] && items[0].0 != k {
      var rest := items[1..];
      assert KeysDistinct(rest) by {
        forall i, j | 0 <= i < j < |rest| ensures rest[i].0 != rest[j].0 {
          assert rest[i] == items[i + 1] && rest[j] == items[j + 1];
        }
      }
      PutSpec(rest, k, v);
      var r := Put(items, k, v);
      assert r == [items[0]] + Put(rest, k, v);
      forall j | 0 < j < |r| ensures r[0].0 != r[j].0 {
        assert r[j] in Put(rest, k, v);
        if r[j] != (k, v) {
          var m :| 0 <= m < |rest| && rest[m] == r[j];
          assert items[m + 1] == r[j];
        }
      }
    }
  }

  /** The item list has one entry per key, holding the key's last value. */
  lemma {:induction false} ItemsSpec(pairs: seq<Pair>)
    ensures KeysDistinct(ItemsOf(pairs))
    ensures forall y :: y in ItemsOf(pairs) <==> y.0 in DictOf(pairs) && DictOf(pairs)[y.0] == y.1
  {
    if pairs != [] {
      var init := pairs[..|pairs| - 1];
      var last := pairs[|pairs| - 1];
      ItemsSpec(init);
      PutSpec(ItemsOf(init), last.0, last.1);
    }
  }

  /** `parsed_data.pop('hash')` on the item list. */
  function Without(items: seq<Pair>, k: string): (r: seq<Pair>)
    ensures forall y :: y in r <==> y in items && y.0 != k
    ensures KeysDistinct(items) ==> KeysDistinct(r)
  {
    if items == [] then []
    else if items[0].0 == k then Without(items[1..], k)
    else [items[0]] + Without(items[1..], k)
  }

  // ------------------------------------------------------------ sorting

  /** Python's `<` on `str`: code point by code point, a proper prefix first. */
  predicate Below(a: string, b: string)
    decreases |a|
  {
    if a == [] then b != []
    else b != [] && (a[0] < b[0] || (a[0] == b[0] && Below(a[1..], b[1..])))
  }

  lemma BelowIrreflexive(a: string)
    ensures !Below(a, a)
  {
  }

  lemma {:induction false} BelowTransitive(a: string, b: string, c: string)
    requires Below(a, b) && Below(b, c)
    ensures Below(a, c)
    decreases |a|
  {
    if a != [] && a[0] == b[0] && b[0] == c[0] {
      BelowTransitive(a[1..], b[1..], c[1..]);
    }
  }

  lemma {:induction false} BelowTotal(a: string, b: string)
    ensures a == b || Below(a, b) || Below(b, a)
    decreases |a|
  {
    if a != [] && b != [] && a[0] == b[0] {
      BelowTotal(a[1..], b[1..]);
      if a[1..] == b[1..] {
        assert a == [a[0]] + a[1..] && b == [b[0]] + b[1..];
      }
    }
  }

  lemma {:induction false} BelowAsymmetric(a: string, b: string)
    requires Below(a, b)
    ensures !Below(b, a)
    decreases |a|
  {
    if a != [] && a[0] == b[0] {
      BelowAsymmetric(a[1..], b[1..]);
    }
  }

  predicate KeysSorted(items: seq<Pair>) {
    forall i, j :: 0 <= i < j < |items| ==> Below(items[i].0, items[j].0)
  }

  function Insert(x: Pair, items: seq<Pair>): seq<Pair> {
    if items == [] then [x]
    else if Below(items[0].0, x.0) then [items[0]] + Insert(x, items[1..])
    else [x] + items
  }

  /** `sorted(parsed_data.items())`: keys are distinct, so the keys decide. */
  function SortItems(items: seq<Pair>): seq<Pair> {
    if items == [] then [] else Insert(items[0], SortItems(items[1..]))
  }

  lemma {:induction false} InsertSpec(x: Pair, items: seq<Pair>)
    requires KeysSorted(items)
    requires forall y :: y in items ==> y.0 != x.0
    ensures KeysSorted(Insert(x, items))
    ensures forall y :: y in Insert(x, items) <==> y == x || y in items
  {
    if items == [] {
    } else if Below(items[0].0, x.0) {
      assert KeysSorted(items[1..]) by {
        forall i, j | 0 <= i < j < |items[1..]| ensures Below(items[1..][i].0, items[1..][j].0) {
          assert items[1..][i] == items[i + 1] && items[1..][j] == items[j + 1];
        }
      }
      InsertSpec(x, items[1..]);
      var r := Insert(x, items);
      assert r == [items[0]] + Insert(x, items[1..]);
      forall j | 0 < j < |r| ensures Below(r[0].0, r[j].0) {
        assert r[j] in Insert(x, items[1..]);
        if r[j] != x {
          var m :| 0 <= m < |items[1..]| && items[1..][m] == r[j];
          assert items[m + 1] == r[j];
        }
      }
      forall y ensures y in r <==> y == x || y in items {
        if y in items && y != items[0] {
          var m :| 0 <= m < |items| && items[m] == y;
          assert items[1..][m - 1] == y;
        }
      }
    } else {
      BelowTotal(items[0].0, x.0);
      var r := Insert(x, items);
      forall i, j | 0 <= i < j < |r| ensures Below(r[i].0, r[j].0) {
        if i == 0 && j > 1 {
          BelowTransitive(x.0, items[0].0, items[j - 1].0);
        }
      }
    }
  }

  lemma {:induction false} SortSpec(items: seq<Pair>)
    requires KeysDistinct(items)
    ensures KeysSorted(SortItems(items))
    ensures forall y :: y in SortItems(items) <==> y in items
  {
    if items != [] {
      var rest := items[1..];
      assert KeysDistinct(rest) by {
        forall i, j | 0 <= i < j < |rest| ensures rest[i].0 != rest[j].0 {
          assert rest[i] == items[i + 1] && rest[j] == items[j + 1];
        }
      }
      SortSpec(rest);
      forall y | y in SortItems(rest) ensures y.0 != items[0].0 {
        var m :| 0 <= m < |rest| && rest[m] == y;
        assert items[m + 1] == y;
      }
      InsertSpec(items[0], SortItems(rest));
      forall y | y in items ensures y in SortItems(items) {
        if y != items[0] {
          var m :| 0 <= m < |items| && items[m] == y;
          assert rest[m - 1] == y;
        }
      }
    }
  }

  /** Two key-sorted item lists with the same items are the same list: the
      sorted order is determined by the dictionary alone. */
  lemma {:induction false} SortedUnique(a: seq<Pair>, b: seq<Pair>)
    requires KeysSorted(a) && KeysSorted(b)
    requires forall y :: y in a <==> y in b
    ensures a == b
  {
    assert b != [] ==> b[0] in b;
    if a != [] {
      assert a[0] in b;
      assert b != [] && b[0] in a;
      if a[0] != b[0] {
        var i :| 0 <= i < |a| && a[i] == b[0];
        var j :| 0 <= j < |b| && b[j] == a[0];
        assert i > 0 && j > 0;
        BelowAsymmetric(a[0].0, a[i].0);
        assert false;
      }
      var a1, b1 := a[1..], b[1..];
      forall y ensures y in a1 <==> y in b1 {
        if y in a1 {
          var m :| 0 <= m < |a1| && a1[m] == y;
          assert a[m + 1] == y;
          assert Below(b[0].0, y.0);
          BelowIrreflexive(y.0);
          assert y != b[0];
          assert y in a;
          var n :| 0 <= n < |b| && b[n] == y;
          assert b1[n - 1] == y;
        }
        if y in b1 {
          var m :| 0 <= m < |b1| && b1[m] == y;
          assert b[m + 1] == y;
          assert Below(a[0].0, y.0);
          BelowIrreflexive(y.0);
          assert y != a[0];
          assert y in b;
          var n :| 0 <= n < |a| && a[n] == y;
          assert a1[n - 1] == y;
        }
      }
      assert KeysSorted(a1) by {
        forall i, j | 0 <= i < j < |a1| ensures Below(a1[i].0, a1[j].0) {
          assert a1[i] == a[i + 1] && a1[j] == a[j + 1];
        }
      }
      assert KeysSorted(b1) by {
        forall i, j | 0 <= i < j < |b1| ensures Below(b1[i].0, b1[j].0) {
          assert b1[i] == b[i + 1] && b1[j] == b[j + 1];
        }
      }
      SortedUnique(a1, b1);
      assert a == [a[0]] + a1 && b == [b[0]] + b1;
    }
  }

  // ------------------------------------------------------------ the check string

  function Lines(items: seq<Pair>): (r: seq<string>)
    ensures |r| == |items|
    ensures forall i :: 0 <= i < |r| ==> r[i] == items[i].0 + "=" + items[i].1
  {
    if items == [] then [] else [items[0].0 + "=" + items[0].1] + Lines(items[1..])
  }

  /** The signed fields, in the order they are signed. */
  function CheckItems(pairs: seq<Pair>): seq<Pair> {
    SortItems(Without(ItemsOf(pairs), "hash"))
  }

  /** `data_check_string`. */
  function CheckString(pairs: seq<Pair>): string {
    Join(Lines(CheckItems(pairs)), "\n")
  }

  /** The signed fields are exactly the dictionary's fields other than
      `hash`, each with its last value, in key order. */
  lemma CheckItemsSpec(pairs: seq<Pair>)
    ensures KeysSorted(CheckItems(pairs))
    ensures forall y :: y in CheckItems(pairs) <==>
      y.0 != "hash" && y.0 in DictOf(pairs) && DictOf(pairs)[y.0] == y.1
  {
    ItemsSpec(pairs);
    SortSpec(Without(ItemsOf(pairs), "hash"));
  }

  /** The check string depends only on the dictionary without `hash`: the
      order of the query pairs and values later overwritten do not matter. */
  lemma CheckStringCanonical(p1: seq<Pair>, p2: seq<Pair>)
    requires DictOf(p1) - {"hash"} == DictOf(p2) - {"hash"}
    ensures CheckString(p1) == CheckString(p2)
  {
    CheckItemsSpec(p1);
    CheckItemsSpec(p2);
    var d1, d2 := DictOf(p1), DictOf(p2);
    forall y ensures y in CheckItems(p1) <==> y in CheckItems(p2) {
      if y.0 != "hash" {
        assert y.0 in d1 <==> y.0 in d1 - {"hash"};
        assert y.0 in d2 <==> y.0 in d2 - {"hash"};
        if y.0 in d1 {
          assert d1[y.0] == (d1 - {"hash"})[y.0] == d2[y.0];
        }
      }
    }
    SortedUnique(CheckItems(p1), CheckItems(p2));
  }

  /** The received hash is not part of what it signs. */
  lemma HashNotSigned(pairs: seq<Pair>, h: string)
    ensures CheckString(pairs + [("hash", h)]) == CheckString(pairs)
  {
    var p := pairs + [("hash", h)];
    assert p[..|p| - 1] == pairs;
    assert DictOf(p) - {"hash"} == DictOf(pairs) - {"hash"};
    CheckStringCanonical(p, pairs);
  }

  // ------------------------------------------------------------ hex digests

  const HexDigits: string := "0123456789abcdef"

  function HexByte(b: byte): (h: string)
    ensures |h| == 2
  {
    [HexDigits[b as int / 16], HexDigits[b as int % 16]]
  }

  /** `hexdigest()`: two lower-case hex digits per byte. */
  function Hex(bs: seq<byte>): (h: string)
    ensures |h| == 2 * |bs|
  {
    if bs == [] then "" else HexByte(bs[0]) + Hex(bs[1..])
  }

  lemma HexDigitsDistinct(i: int, j: int)
    requires 0 <= i < 16 && 0 <= j < 16 && HexDigits[i] == HexDigits[j]
    ensures i == j
  {
  }

  lemma HexByteInjective(a: byte, b: byte)
    requires HexByte(a) == HexByte(b)
    ensures a == b
  {
    HexDigitsDistinct(a as int / 16, b as int / 16);
    HexDigitsDistinct(a as int % 16, b as int % 16);
  }

  /** Comparing hex digests compares the digests themselves. */
  lemma {:induction false} HexInjective(a: seq<byte>, b: seq<byte>)
    requires Hex(a) == Hex(b)
    ensures a == b
  {
    if a != [] {
      assert Hex(a)[..2] == HexByte(a[0]) && Hex(b)[..2] == HexByte(b[0]);
      HexByteInjective(a[0], b[0]);
      assert Hex(a)[2..] == Hex(a[1..]) && Hex(b)[2..] == Hex(b[1..]);
      HexInjective(a[1..], b[1..]);
    }
  }

  predicate Ascii(s: string) {
    forall i :: 0 <= i < |s| ==> s[i] as int < 128
  }

  lemma {:induction false} HexAscii(bs: seq<byte>)
    ensures Ascii(Hex(bs))
  {
    if bs != [] {
      HexAscii(bs[1..]);
      var h := Hex(bs);
      forall i | 0 <= i < |h| ensures h[i] as int < 128 {
        if i >= 2 {
          assert h[i] == Hex(bs[1..])[i - 2];
        }
      }
    }
  }

  // ------------------------------------------------------------ the check

  /** The hex HMAC the service expects for these fields. */
  function Expected(pairs: seq<Pair>, token: string, prim: Primitives): string {
    var secret := prim.hmacSha256(prim.utf8("WebAppData"), prim.utf8(token));
    Hex(prim.hmacSha256(secret, prim.utf8(CheckString(pairs))))
  }

  /** The `user` field, decoded; `{}` when it is absent. */
  function UserField(d: map<string, string>, prim: Primitives): Decoded {
    if "user" in d then prim.decodeUser(d["user"]) else Decoded(TgUser(None, None, None, None, None))
  }

  const AuthFailed: string := "Authentication failed: "

  /** `verify_telegram_init_data`. Every failure, the service's own
      `HTTPException`s included, is re-raised as 401 with the text
      "Authentication failed: " and the original message (which for an
      `HTTPException` reads "401: <detail>"). */
  function VerifyInitData(initData: string, token: string, prim: Primitives): (r: Reply<TgUser>)
    ensures r.Fail? ==> r.status == 401 && StartsWith(r.detail, AuthFailed)
    ensures var pairs := ParseQsl(initData, prim.unquote); var d := DictOf(pairs);
      && (r.Ok? <==> "hash" in d && d["hash"] == Expected(pairs, token, prim) && UserField(d, prim).Decoded?)
      && (r.Ok? ==> r.value == UserField(d, prim).user)
      && ("hash" !in d ==> r == Fail(401, AuthFailed + "401: Invalid initData: missing hash"))
  {
    var pairs := ParseQsl(initData, prim.unquote);
    var d := DictOf(pairs);
    if "hash" !in d then
      Fail(401, AuthFailed + "401: Invalid initData: missing hash")
    else
      var received := d["hash"];
      var calculated := Expected(pairs, token, prim);
      if !Ascii(received) then
        HexAscii(prim.hmacSha256(prim.hmacSha256(prim.utf8("WebAppData"), prim.utf8(token)), prim.utf8(CheckString(pairs))));
        Fail(401, AuthFailed + "comparing strings with non-ASCII characters is not supported")
      else if calculated != received then
        Fail(401, AuthFailed + "401: Invalid initData signature")
      else
        match UserField(d, prim)
        case JsonError(msg) => Fail(401, AuthFailed + msg)
        case Decoded(u) => Ok(u)
  }

  /** Changing any signed field's value, or the hash itself, without a new
      signature: when the received hash was right for the old fields it
      is checked against the new fields' digest, and the HMAC outputs are
      compared byte for byte. */
  lemma AcceptedMeansDigestMatch(initData: string, token: string, prim: Primitives)
    requires VerifyInitData(initData, token, prim).Ok?
    ensures var pairs := ParseQsl(initData, prim.unquote);
      var secret := prim.hmacSha256(prim.utf8("WebAppData"), prim.utf8(token));
      forall digest :: Hex(digest) == DictOf(pairs)["hash"] ==>
        digest == prim.hmacSha256(secret, prim.utf8(CheckString(pairs)))
  {
    var pairs := ParseQsl(initData, prim.unquote);
    var secret := prim.hmacSha256(prim.utf8("WebAppData"), prim.utf8(token));
    forall digest | Hex(digest) == DictOf(pairs)["hash"]
      ensures digest == prim.hmacSha256(secret, prim.utf8(CheckString(pairs)))
    {
      HexInjective(digest, prim.hmacSha256(secret, prim.utf8(CheckString(pairs))));
    }
  }

  /** `get_current_user`: the header must be present, non-empty and start
      with "tma "; the rest is the initData. */
  function CurrentUser(authorization: Option<string>, token: string, prim: Primitives): (r: Reply<TgUser>)
    ensures !Truthy(authorization) ==> r == Fail(401, "Authorization header required")
    ensures Truthy(authorization) && !StartsWith(authorization.value, "tma ") ==>
      r == Fail(401, "Invalid authorization format")
    ensures Truthy(authorization) && StartsWith(authorization.value, "tma ") ==>
      r == VerifyInitData(authorization.value[4..], token, prim)
    ensures r.Fail? ==> r.status == 401
  {
    if !Truthy(authorization) then Fail(401, "Authorization header required")
    else if !StartsWith(authorization.value, "tma ") then Fail(401, "Invalid authorization format")
    else VerifyInitData(authorization.value[4..], token, prim)
  }
}
