/**
 The query of a proxy connection: it must carry the expected token and may name a client. Strings
 are byte strings here, as the token is compared byte by byte without an early exit.
 */
module ProxyQuery {
  import opened Prelude
  import Text

  type byte = bv8
  type bytes = seq<byte>

  const AMPERSAND: byte := 38
  const EQUALS: byte := 61
  const PERCENT: byte := 37

  /** "token", "clientId" and "default". */
  const TOKEN: bytes := [116, 111, 107, 101, 110]
  const CLIENT_ID: bytes := [99, 108, 105, 101, 110, 116, 73, 100]
  const DEFAULT_CLIENT: bytes := [100, 101, 102, 97, 117, 108, 116]

  const MAX_CLIENT_ID_BYTES: nat := 128

  datatype QueryError = Forbidden | InvalidParams

  // ----- comparison in constant time -----

  /** The differences of all byte pairs, gathered into one byte. */
  function Difference(left: bytes, right: bytes): byte
    requires |left| == |right|
  {
    if left == [] then 0
    else Difference(left[..|left| - 1], right[..|right| - 1]) | (left[|left| - 1] ^ right[|right| - 1])
  }

  lemma NoBits(a: byte, l: byte, r: byte)
    ensures a | (l ^ r) == 0 <==> a == 0 && l == r
  {
  }

  /** The gathered difference is zero exactly for equal byte strings. */
  lemma {:induction false} DifferenceIsZeroWhenEqual(left: bytes, right: bytes)
    requires |left| == |right|
    ensures Difference(left, right) == 0 <==> left == right
  {
    if left != [] {
      var n := |left| - 1;
      DifferenceIsZeroWhenEqual(left[..n], right[..n]);
      NoBits(Difference(left[..n], right[..n]), left[n], right[n]);
      assert left == left[..n] + [left[n]] && right == right[..n] + [right[n]];
    }
  }

  method ConstantTimeEq(left: bytes, right: bytes) returns (equal: bool)
    ensures equal <==> left == right
  {
    if |left| != |right| {
      return false;
    }
    var difference: byte := 0;
    for i := 0 to |left|
      invariant difference == Difference(left[..i], right[..i])
    {
      assert left[..i + 1][..i] == left[..i] && right[..i + 1][..i] == right[..i];
      difference := difference | (left[i] ^ right[i]);
    }
    assert left[..|left|] == left && right[..|right|] == right;
    DifferenceIsZeroWhenEqual(left, right);
    equal := difference == 0;
  }

  // ----- client ids -----

  datatype JsonValue = Null | String(value: bytes) | OtherJson

  predicate IsClientIdByte(b: byte) {
    48 <= b <= 57 || 65 <= b <= 90 || 97 <= b <= 122 || b == 45 || b == 95 || b == 46 || b == 58
  }

  predicate IsClientId(id: bytes) {
    0 < |id| <= MAX_CLIENT_ID_BYTES && forall i | 0 <= i < |id| :: IsClientIdByte(id[i])
  }

  function NormalizedClientId(value: Option<JsonValue>): (r: Result<bytes, QueryError>)
    ensures r.Ok? ==> IsClientId(r.value)
  {
    if value.None? || value.value.Null? then Ok(DEFAULT_CLIENT)
    else if value.value.String? && IsClientId(value.value.value) then Ok(value.value.value)
    else Err(InvalidParams)
  }

  // ----- the query -----

  function SplitOnce(item: bytes, c: byte): Option<(bytes, bytes)> {
    if item == [] then None
    else if item[0] == c then Some(([], item[1..]))
    else
      var rest := SplitOnce(item[1..], c);
      if rest.None? then None else Some(([item[0]] + rest.value.0, rest.value.1))
  }

  /** Only the first separator counts: the key holds none, the value any number. */
  lemma {:induction false} SplitOnceIsFirst(item: bytes, c: byte, key: bytes, value: bytes)
    ensures SplitOnce(item, c) == Some((key, value)) <==> item == key + [c] + value && c !in key
  {
    if item == [] || item[0] == c {
      if item != [] && item == key + [c] + value && c !in key {
        FirstOfKey(item, c, key, value);
      }
      if item != [] && key == [] && value == item[1..] {
        assert item == [c] + value;
      }
    } else {
      if key != [] {
        SplitOnceIsFirst(item[1..], c, key[1..], value);
        assert [key[0]] + key[1..] == key;
        assert (key + [c] + value)[1..] == key[1..] + [c] + value;
        assert item == [item[0]] + item[1..];
        if item == key + [c] + value {
          assert item[0] == key[0];
        }
      } else {
        assert ([] + [c] + value)[0] == c;
      }
    }
  }

  lemma FirstOfKey(item: bytes, c: byte, key: bytes, value: bytes)
    requires item != [] && item[0] == c && item == key + [c] + value && c !in key
    ensures key == [] && item[1..] == value
  {
  }

  predicate IsPlain(value: bytes) {
    PERCENT !in value && forall i | 0 <= i < |value| :: value[i] < 128
  }

  datatype Field = Token(value: bytes) | ClientId(value: bytes)

  function FieldOf(item: bytes): Option<Field> {
    var parts := SplitOnce(item, EQUALS);
    if parts.None? || !IsPlain(parts.value.1) then None
    else if parts.value.0 == TOKEN then Some(Token(parts.value.1))
    else if parts.value.0 == CLIENT_ID then Some(ClientId(parts.value.1))
    else None
  }

  function TokenItem(value: bytes): bytes {
    TOKEN + [EQUALS] + value
  }

  function ClientItem(value: bytes): bytes {
    CLIENT_ID + [EQUALS] + value
  }

  lemma FieldsAreWritten(item: bytes, value: bytes)
    ensures FieldOf(item) == Some(Token(value)) <==> item == TokenItem(value) && IsPlain(value)
    ensures FieldOf(item) == Some(ClientId(value)) <==> item == ClientItem(value) && IsPlain(value)
  {
    SplitOnceIsFirst(item, EQUALS, TOKEN, value);
    SplitOnceIsFirst(item, EQUALS, CLIENT_ID, value);
  }

  datatype Fields = Fields(token: Option<bytes>, clientId: Option<bytes>)

  /** Take in one field; a second one of its kind is an error. */
  function Take(fields: Fields, item: bytes): Option<Fields> {
    var field := FieldOf(item);
    if field.None? then None
    else if field.value.Token? && fields.token.None? then Some(fields.(token := Some(field.value.value)))
    else if field.value.ClientId? && fields.clientId.None? then Some(fields.(clientId := Some(field.value.value)))
    else None
  }

  function TakeAll(fields: Fields, items: seq<bytes>): Option<Fields>
    decreases |items|
  {
    if items == [] then Some(fields)
    else
      var next := Take(fields, items[0]);
      if next.None? then None else TakeAll(next.value, items[1..])
  }

  function Verdict(fields: Fields, expected: bytes): Result<bytes, QueryError> {
    if fields.token != Some(expected) then Err(Forbidden)
    else
      var id := NormalizedClientId(if fields.clientId.None? then None else Some(String(fields.clientId.value)));
      if id.Err? then Err(Forbidden) else id
  }

  /** What a connection with this query is accepted as. */
  function Accepted(query: bytes, expected: bytes): Result<bytes, QueryError> {
    var fields := TakeAll(Fields(None, None), Text.Split(query, AMPERSAND));
    if fields.None? then Err(Forbidden) else Verdict(fields.value, expected)
  }

  method ParseProxyQuery(query: Option<bytes>, expected: bytes) returns (r: Result<bytes, QueryError>)
    ensures r == if query.None? then Err(Forbidden) else Accepted(query.value, expected)
  {
    if query.None? {
      return Err(Forbidden);
    }
    var items := Text.Split(query.value, AMPERSAND);
    var token: Option<bytes>, clientId: Option<bytes> := None, None;
    for i := 0 to |items|
      invariant TakeAll(Fields(token, clientId), items[i..]) == TakeAll(Fields(None, None), items)
    {
      assert items[i..][0] == items[i] && items[i..][1..] == items[i + 1..];
      var parts := SplitOnce(items[i], EQUALS);
      if parts.None? || !IsPlain(parts.value.1) {
        return Err(Forbidden);
      }
      if parts.value.0 == TOKEN && token.None? {
        token := Some(parts.value.1);
      } else if parts.value.0 == CLIENT_ID && clientId.None? {
        clientId := Some(parts.value.1);
      } else {
        return Err(Forbidden);
      }
    }
    assert items[|items|..] == [];
    if token.None? {
      return Err(Forbidden);
    }
    var equal := ConstantTimeEq(token.value, expected);
    if !equal {
      return Err(Forbidden);
    }
    var id := NormalizedClientId(if clientId.None? then None else Some(String(clientId.value)));
    r := if id.Err? then Err(Forbidden) else id;
  }

  // ----- exactly three forms -----

  /** The queries that are accepted for `expected` as client `id`. */
  predicate IsForm(query: bytes, expected: bytes, id: bytes) {
    && IsPlain(expected) && AMPERSAND !in expected
    && ( || (query == TokenItem(expected) && id == DEFAULT_CLIENT)
         || (query == TokenItem(expected) + [AMPERSAND] + ClientItem(id) && IsClientId(id))
         || (query == ClientItem(id) + [AMPERSAND] + TokenItem(expected) && IsClientId(id)))
  }

  /** More than two fields repeat one. */
  lemma ThreeFieldsRepeat(items: seq<bytes>)
    requires |items| > 2
    ensures TakeAll(Fields(None, None), items).None?
  {
    var first := Take(Fields(None, None), items[0]);
    if first.Some? {
      var second := Take(first.value, items[1]);
      assert items[1..][0] == items[1] && items[1..][1..] == items[2..] && items[2..][0] == items[2];
      if second.Some? {
        assert Take(second.value, items[2]).None?;
        assert TakeAll(second.value, items[2..]).None?;
      }
      assert TakeAll(first.value, items[1..]).None?;
    }
  }

  lemma TakeOne(fields: Fields, a: bytes)
    ensures TakeAll(fields, [a]) == Take(fields, a)
  {
    assert [a][1..] == [];
  }

  lemma TakeTwo(a: bytes, b: bytes)
    ensures var first := Take(Fields(None, None), a);
            TakeAll(Fields(None, None), [a, b]) == if first.None? then None else Take(first.value, b)
  {
    assert [a, b][1..] == [b];
    var first := Take(Fields(None, None), a);
    if first.Some? {
      TakeOne(first.value, b);
    }
  }

  lemma ClientIdIsPlain(id: bytes)
    requires IsClientId(id)
    ensures IsPlain(id) && AMPERSAND !in id
  {
    assert forall i | 0 <= i < |id| :: IsClientIdByte(id[i]);
  }

  lemma ItemHasNoAmpersand(value: bytes)
    ensures AMPERSAND in TokenItem(value) <==> AMPERSAND in value
    ensures AMPERSAND in ClientItem(value) <==> AMPERSAND in value
  {
    assert AMPERSAND !in TOKEN + [EQUALS] && AMPERSAND !in CLIENT_ID + [EQUALS];
  }

  lemma FormsAreAccepted(query: bytes, expected: bytes, id: bytes)
    requires IsForm(query, expected, id)
    ensures Accepted(query, expected) == Ok(id)
  {
    ItemHasNoAmpersand(expected);
    ItemHasNoAmpersand(id);
    var (t, c) := (TokenItem(expected), ClientItem(id));
    FieldsAreWritten(t, expected);
    if query == t && id == DEFAULT_CLIENT {
      Text.SplitWhole(t, AMPERSAND);
      TakeOne(Fields(None, None), t);
    } else {
      ClientIdIsPlain(id);
      FieldsAreWritten(c, id);
      Text.SplitWhole(t, AMPERSAND);
      Text.SplitWhole(c, AMPERSAND);
      if query == t + [AMPERSAND] + c {
        Text.SplitFirst(t, c, AMPERSAND);
        assert [t] + [c] == [t, c];
        TakeTwo(t, c);
      } else {
        Text.SplitFirst(c, t, AMPERSAND);
        assert [c] + [t] == [c, t];
        TakeTwo(c, t);
      }
    }
  }

  lemma AcceptedHasForm(query: bytes, expected: bytes, id: bytes)
    requires Accepted(query, expected) == Ok(id)
    ensures IsForm(query, expected, id)
  {
    var items := Text.Split(query, AMPERSAND);
    Text.JoinUndoesSplit(query, AMPERSAND);
    if |items| > 2 {
      ThreeFieldsRepeat(items);
    } else if |items| == 1 {
      assert items == [items[0]];
      TakeOne(Fields(None, None), items[0]);
      FieldsAreWritten(items[0], expected);
      ItemHasNoAmpersand(expected);
    } else {
      assert items == [items[0], items[1]];
      TakeTwo(items[0], items[1]);
      TwoItemsHaveForm(query, items[0], items[1], expected, id);
    }
  }

  lemma TwoItemsHaveForm(query: bytes, a: bytes, b: bytes, expected: bytes, id: bytes)
    requires AMPERSAND !in a && AMPERSAND !in b && query == a + [AMPERSAND] + b
    requires var first := Take(Fields(None, None), a);
             && first.Some?
             && var fields := Take(first.value, b);
                fields.Some? && Verdict(fields.value, expected) == Ok(id)
    ensures IsForm(query, expected, id)
  {
    var (first, second) := (FieldOf(a).value, FieldOf(b).value);
    FieldsAreWritten(a, first.value);
    FieldsAreWritten(b, second.value);
    ItemHasNoAmpersand(first.value);
    ItemHasNoAmpersand(second.value);
  }

  /** A query is accepted as client `id` exactly when it is one of the three forms, for every
      expected token: one that is not plain is never matched. */
  lemma AcceptedExactlyTheForms(query: bytes, expected: bytes, id: bytes)
    ensures Accepted(query, expected) == Ok(id) <==> IsForm(query, expected, id)
  {
    if Accepted(query, expected) == Ok(id) {
      AcceptedHasForm(query, expected, id);
    }
    if IsForm(query, expected, id) {
      FormsAreAccepted(query, expected, id);
    }
  }
}
