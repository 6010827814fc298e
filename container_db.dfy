/**
 * The score containers of icon_container_db.py over the store: `DictDB`, a
 * possibly nested mapping under one variable name; `ListDB`, an append-only
 * list; and `VarDB`, a single value.  Each keeps a handle on its namespace,
 * which here is the shared `Store` and a byte prefix.
 *
 * `DictDB.__setitem__` and `__getitem__` call `DictDB.__check_tuple_keys(keys)`,
 * and `ListDB.__init__` calls `ListDB.__get_size()`, without an instance; the
 * model makes the evidently intended calls on `self`.
 */
module ContainerDb {
  import opened Wrappers
  import opened Utf8
  import opened HexText
  import opened PyValues
  import opened Storage
  import opened ContainerUtil

  // ------------------------------------------------------ key tuples

  /** The keys a DictDB accepts: int (a bool is one), str and Address. */
  predicate IsKeyType(k: PyValue) {
    k.PInt? || k.PBool? || k.PStr? || k.PAddress?
  }

  /**
   * The keys `__check_tuple_keys` iterates over, as written: `None` is the
   * empty tuple; anything iterable is iterated as it is, so a string gives
   * its one-character strings, bytes give ints, a dict gives its keys; any
   * other value is a one-element tuple.
   */
  function KeySeqAsWritten(keys: PyValue): (r: seq<PyValue>)
    ensures keys.PStr? ==> |r| == |keys.s| && forall i :: 0 <= i < |r| ==> r[i] == PStr([keys.s[i]])
  {
    match keys
    case PNone => []
    case PStr(s) => seq(|s|, i requires 0 <= i < |s| => PStr([s[i]]))
    case PBytes(data) => seq(|data|, i requires 0 <= i < |data| => PInt(data[i] as int))
    case PList(elems) => elems
    case PDict(items) => seq(|items|, i requires 0 <= i < |items| => items[i].0)
    case _ => [keys]
  }

  /** The same, with a string taken as one key, as a DictDB keyed by str evidently means it. */
  function KeySeq(keys: PyValue): (r: seq<PyValue>)
    ensures keys.PStr? ==> r == [keys]
    ensures !keys.PStr? ==> r == KeySeqAsWritten(keys)
  {
    match keys
    case PStr(_) => [keys]
    case _ => KeySeqAsWritten(keys)
  }

  /** The type check, then the depth check, of `__check_tuple_keys`. */
  function CheckKeys(ks: seq<PyValue>, depth: int): (r: Result<seq<PyValue>>)
    ensures r.Ok? <==> |ks| == depth && forall i :: 0 <= i < |ks| ==> IsKeyType(ks[i])
    ensures r.Ok? ==> r.value == ks
    ensures r == Err(CannotCastArgs) <==> exists i :: 0 <= i < |ks| && !IsKeyType(ks[i])
    ensures (forall i :: 0 <= i < |ks| ==> IsKeyType(ks[i])) && |ks| != depth ==> r == Err(DepthOver)
  {
    if exists i :: 0 <= i < |ks| && !IsKeyType(ks[i]) then Err(CannotCastArgs)
    else if |ks| != depth then Err(DepthOver)
    else Ok(ks)
  }

  function CheckTupleKeysAsWritten(keys: PyValue, depth: int): (r: Result<seq<PyValue>>)
    ensures r.Ok? ==> |r.value| == depth && forall i :: 0 <= i < |r.value| ==> IsKeyType(r.value[i])
    ensures keys.PNone? ==> r == if depth == 0 then Ok([]) else Err(DepthOver)
  {
    CheckKeys(KeySeqAsWritten(keys), depth)
  }

  function CheckTupleKeys(keys: PyValue, depth: int): (r: Result<seq<PyValue>>)
    ensures r.Ok? ==> |r.value| == depth && forall i :: 0 <= i < |r.value| ==> IsKeyType(r.value[i])
    ensures keys.PNone? ==> r == if depth == 0 then Ok([]) else Err(DepthOver)
  {
    CheckKeys(KeySeq(keys), depth)
  }

  /**
   * As written, a string key is split into characters, so on the default
   * depth-1 DictDB every key string but a one-character one is refused as
   * "depth over"; taken as one key it is accepted.
   */
  lemma StrKeySplitAsWritten(s: string)
    requires |s| != 1
    ensures CheckTupleKeysAsWritten(PStr(s), 1) == Err(DepthOver)
    ensures CheckTupleKeys(PStr(s), 1) == Ok([PStr(s)])
  {
    var ks := KeySeqAsWritten(PStr(s));
    assert forall i :: 0 <= i < |ks| ==> IsKeyType(ks[i]);
  }

  /** On the keys that are not strings the corrected check is the check as written. */
  lemma CheckTupleKeysAgrees(keys: PyValue, depth: int)
    requires !keys.PStr?
    ensures CheckTupleKeys(keys, depth) == CheckTupleKeysAsWritten(keys, depth)
  {
  }

  /** A single int, bool, str or Address key passes the check exactly at depth 1. */
  lemma SingleKeyDepth(key: PyValue, depth: int)
    requires IsKeyType(key)
    ensures CheckTupleKeys(key, depth) == if depth == 1 then Ok([key]) else Err(DepthOver)
  {
    assert KeySeq(key) == [key];
  }

  // ------------------------------------------------------ DictDB specification

  /** Where a key tuple lives: the DictDB's prefix followed by the encoding of every key. */
  function DictLocation(prefix: Bytes, depth: int, keys: PyValue): (r: Result<Bytes>)
    ensures r.Ok? ==> CheckTupleKeys(keys, depth).Ok? && prefix <= r.value
  {
    var checked := CheckTupleKeys(keys, depth);
    if checked.Err? then Err(checked.failure)
    else if checked.value == [] then Err(EmptyKeyTuple)
    else
      var path := EncodePath(checked.value);
      if path.Err? then Err(path.failure) else Ok(prefix + path.value)
  }

  /**
   * `DictDB.__setitem__`: check the keys, walk every key but the last into
   * sub-namespaces, encode the value, then write it under the last key.
   */
  function DictSet(m: Entries, prefix: Bytes, depth: int, keys: PyValue, value: PyValue): (r: Result<Entries>)
    ensures CheckTupleKeys(keys, depth).Err? ==> r == Err(CheckTupleKeys(keys, depth).failure)
    ensures depth <= 0 ==> r.Err?
    ensures r.Ok? ==> IsStorable(value) && m.Keys <= r.value.Keys
  {
    var checked := CheckTupleKeys(keys, depth);
    if checked.Err? then Err(checked.failure)
    else
      var ks := checked.value;
      if ks == [] then Err(EmptyKeyTuple)
      else
        var path := EncodePath(ks[..|ks| - 1]);
        if path.Err? then Err(path.failure)
        else
          var ev := EncodeValue(value);
          if ev.Err? then Err(ev.failure)
          else
            var ek := EncodeKey(ks[|ks| - 1]);
            if ek.Err? then Err(ek.failure)
            else Ok(m[prefix + path.value + ek.value := ev.value])
  }

  /** `DictDB.__getitem__`: the same walk, then decode what is stored under the last key. */
  function DictGet(m: Entries, prefix: Bytes, depth: int, keys: PyValue, t: ValueType): (r: Result<Option<PyValue>>)
    ensures CheckTupleKeys(keys, depth).Err? ==> r == Err(CheckTupleKeys(keys, depth).failure)
    ensures depth <= 0 ==> r.Err?
    ensures r.Ok? && r.value.Some? ==> TypeOf(r.value.value) == t
  {
    var checked := CheckTupleKeys(keys, depth);
    if checked.Err? then Err(checked.failure)
    else
      var ks := checked.value;
      if ks == [] then Err(EmptyKeyTuple)
      else
        var path := EncodePath(ks[..|ks| - 1]);
        if path.Err? then Err(path.failure)
        else
          var ek := EncodeKey(ks[|ks| - 1]);
          if ek.Err? then Err(ek.failure)
          else DecodeObject(Lookup(m, prefix + path.value + ek.value), t)
  }

  /** Encoding all keys is encoding all but the last and then the last. */
  lemma {:induction false} EncodePathLast(ks: seq<PyValue>)
    requires ks != []
    ensures EncodePath(ks).Ok? <==> EncodePath(ks[..|ks| - 1]).Ok? && EncodeKey(ks[|ks| - 1]).Ok?
    ensures EncodePath(ks).Ok? ==>
              EncodePath(ks).value == EncodePath(ks[..|ks| - 1]).value + EncodeKey(ks[|ks| - 1]).value
  {
    var n := |ks| - 1;
    assert ks[..n] + [ks[n]] == ks;
    EncodePathOk(ks);
    EncodePathOk(ks[..n]);
    assert forall i :: 0 <= i < n ==> ks[..n][i] == ks[i];
    if EncodePath(ks[..n]).Ok? && EncodeKey(ks[n]).Ok? {
      EncodePathSnoc(ks[..n], ks[n]);
    }
  }

  /** The last step of `__setitem__`, once every key but the last has been walked into `subDb`. */
  lemma DictSetLast(m: Entries, prefix: Bytes, depth: int, keys: PyValue, value: PyValue, subDb: Bytes)
    requires CheckTupleKeys(keys, depth).Ok? && CheckTupleKeys(keys, depth).value != []
    requires var ks := CheckTupleKeys(keys, depth).value;
             EncodePath(ks[..|ks| - 1]).Ok? && subDb == prefix + EncodePath(ks[..|ks| - 1]).value
    ensures var ks := CheckTupleKeys(keys, depth).value;
            DictSet(m, prefix, depth, keys, value)
            == if EncodeValue(value).Err? then Err(EncodeValue(value).failure)
               else if EncodeKey(ks[|ks| - 1]).Err? then Err(EncodeKey(ks[|ks| - 1]).failure)
               else Ok(m[subDb + EncodeKey(ks[|ks| - 1]).value := EncodeValue(value).value])
  {
  }

  /** The last step of `__getitem__`, once every key but the last has been walked into `subDb`. */
  lemma DictGetLast(m: Entries, prefix: Bytes, depth: int, keys: PyValue, t: ValueType, subDb: Bytes)
    requires CheckTupleKeys(keys, depth).Ok? && CheckTupleKeys(keys, depth).value != []
    requires var ks := CheckTupleKeys(keys, depth).value;
             EncodePath(ks[..|ks| - 1]).Ok? && subDb == prefix + EncodePath(ks[..|ks| - 1]).value
    ensures var ks := CheckTupleKeys(keys, depth).value;
            DictGet(m, prefix, depth, keys, t)
            == if EncodeKey(ks[|ks| - 1]).Err? then Err(EncodeKey(ks[|ks| - 1]).failure)
               else DecodeObject(Lookup(m, subDb + EncodeKey(ks[|ks| - 1]).value), t)
  {
  }

  /** A key before the last that cannot be encoded fails both `__setitem__` and `__getitem__`. */
  lemma DictWalkFails(m: Entries, prefix: Bytes, depth: int, keys: PyValue, value: PyValue, t: ValueType, i: nat)
    requires CheckTupleKeys(keys, depth).Ok?
    requires var ks := CheckTupleKeys(keys, depth).value;
             i < |ks| - 1 && EncodeKey(ks[i]).Err?
    ensures var ks := CheckTupleKeys(keys, depth).value;
            && DictSet(m, prefix, depth, keys, value) == Err(EncodeKey(ks[i]).failure)
            && DictGet(m, prefix, depth, keys, t) == Err(EncodeKey(ks[i]).failure)
  {
    var ks := CheckTupleKeys(keys, depth).value;
    assert ks[..|ks| - 1][i] == ks[i];
    EncodePathFails(ks[..|ks| - 1], i);
  }

  /**
   * `__setitem__` succeeds exactly when the keys have a location and the value
   * can be encoded, and then it writes the encoded value there and nothing else.
   */
  lemma DictSetWritesLocation(m: Entries, prefix: Bytes, depth: int, keys: PyValue, value: PyValue)
    ensures DictSet(m, prefix, depth, keys, value).Ok?
            <==> DictLocation(prefix, depth, keys).Ok? && EncodeValue(value).Ok?
    ensures DictSet(m, prefix, depth, keys, value).Ok? ==>
              DictSet(m, prefix, depth, keys, value).value
              == m[DictLocation(prefix, depth, keys).value := EncodeValue(value).value]
  {
    var checked := CheckTupleKeys(keys, depth);
    if checked.Ok? && checked.value != [] {
      var ks := checked.value;
      var n := |ks| - 1;
      DictLocationLast(prefix, depth, keys);
      if EncodePath(ks[..n]).Ok? {
        DictSetLast(m, prefix, depth, keys, value, prefix + EncodePath(ks[..n]).value);
      } else {
        assert DictSet(m, prefix, depth, keys, value).Err?;
      }
    }
  }

  /** The location of a key tuple: the walked namespace of all keys but the last, then the last key. */
  lemma DictLocationLast(prefix: Bytes, depth: int, keys: PyValue)
    requires CheckTupleKeys(keys, depth).Ok? && CheckTupleKeys(keys, depth).value != []
    ensures var ks := CheckTupleKeys(keys, depth).value;
            DictLocation(prefix, depth, keys).Ok? <==> EncodePath(ks[..|ks| - 1]).Ok? && EncodeKey(ks[|ks| - 1]).Ok?
    ensures var ks := CheckTupleKeys(keys, depth).value;
            DictLocation(prefix, depth, keys).Ok? ==>
              DictLocation(prefix, depth, keys).value
              == prefix + EncodePath(ks[..|ks| - 1]).value + EncodeKey(ks[|ks| - 1]).value
  {
    var ks := CheckTupleKeys(keys, depth).value;
    var n := |ks| - 1;
    EncodePathLast(ks);
    if EncodePath(ks).Ok? {
      ConcatAssoc(prefix, EncodePath(ks[..n]).value, EncodeKey(ks[n]).value);
    }
  }

  /** `__getitem__` fails exactly where the location does, and otherwise decodes what is stored there. */
  lemma DictGetReadsLocation(m: Entries, prefix: Bytes, depth: int, keys: PyValue, t: ValueType)
    ensures DictLocation(prefix, depth, keys).Err? ==>
              DictGet(m, prefix, depth, keys, t) == Err(DictLocation(prefix, depth, keys).failure)
    ensures DictLocation(prefix, depth, keys).Ok? ==>
              DictGet(m, prefix, depth, keys, t) == DecodeObject(Lookup(m, DictLocation(prefix, depth, keys).value), t)
  {
    var checked := CheckTupleKeys(keys, depth);
    if checked.Ok? && checked.value != [] {
      var ks := checked.value;
      var n := |ks| - 1;
      DictLocationLast(prefix, depth, keys);
      if EncodePath(ks[..n]).Ok? {
        DictGetLast(m, prefix, depth, keys, t, prefix + EncodePath(ks[..n]).value);
      } else {
        assert DictGet(m, prefix, depth, keys, t) == Err(CannotEncodeKey);
      }
    }
  }

  /**
   * Set then get: after `d[keys] = value`, `d[keys]` decodes the stored
   * encoding as the DictDB's value type, which is `value` itself when that
   * type is the value's own.
   */
  lemma DictSetThenGet(m: Entries, prefix: Bytes, depth: int, keys: PyValue, value: PyValue, t: ValueType)
    requires DictSet(m, prefix, depth, keys, value).Ok?
    ensures IsStorable(value)
    ensures DictGet(DictSet(m, prefix, depth, keys, value).value, prefix, depth, keys, t)
            == DecodeObject(Some(EncodeValue(value).value), t)
    ensures t == TypeOf(value) ==>
              DictGet(DictSet(m, prefix, depth, keys, value).value, prefix, depth, keys, t) == Ok(Some(value))
  {
    DictSetWritesLocation(m, prefix, depth, keys, value);
    DictGetReadsLocation(DictSet(m, prefix, depth, keys, value).value, prefix, depth, keys, t);
    ValueRoundTrip(value);
  }

  /** Writing one key tuple leaves what every other location reads unchanged. */
  lemma DictSetOtherKeys(m: Entries, prefix: Bytes, depth: int, keys: PyValue, other: PyValue, value: PyValue, t: ValueType)
    requires DictSet(m, prefix, depth, keys, value).Ok?
    requires DictLocation(prefix, depth, other) != DictLocation(prefix, depth, keys)
    ensures DictGet(DictSet(m, prefix, depth, keys, value).value, prefix, depth, other, t)
            == DictGet(m, prefix, depth, other, t)
  {
    DictSetWritesLocation(m, prefix, depth, keys, value);
    DictGetReadsLocation(DictSet(m, prefix, depth, keys, value).value, prefix, depth, other, t);
    DictGetReadsLocation(m, prefix, depth, other, t);
  }

  /**
   * Two key paths of delimiter-free keys with the same encoding agree key by
   * key in encoding, so tuples that differ in the encoding of some key have
   * different locations.
   */
  lemma {:induction false} EncodePathSegmentsInjective(ks1: seq<PyValue>, ks2: seq<PyValue>)
    requires |ks1| == |ks2|
    requires forall i :: 0 <= i < |ks1| ==> PipeFreeKey(ks1[i]) && PipeFreeKey(ks2[i])
    requires EncodePath(ks1).Ok? && EncodePath(ks1) == EncodePath(ks2)
    ensures forall i :: 0 <= i < |ks1| ==> EncodeKey(ks1[i]) == EncodeKey(ks2[i])
  {
    if ks1 != [] {
      var t1, t2 := ks1[1..], ks2[1..];
      EncodePathHeadsCancel(ks1, ks2);
      assert forall i :: 0 <= i < |t1| ==> PipeFreeKey(t1[i]) && PipeFreeKey(t2[i]) by {
        forall i | 0 <= i < |t1| ensures PipeFreeKey(t1[i]) && PipeFreeKey(t2[i]) {
          assert t1[i] == ks1[i + 1] && t2[i] == ks2[i + 1];
        }
      }
      EncodePathSegmentsInjective(t1, t2);
      forall i | 0 <= i < |ks1|
        ensures EncodeKey(ks1[i]) == EncodeKey(ks2[i])
      {
        if i > 0 {
          assert ks1[i] == ks1[1..][i - 1] && ks2[i] == ks2[1..][i - 1];
        }
      }
    }
  }

  /** Equal encodings of two paths starting with delimiter-free keys agree on the first key and on the rest. */
  lemma EncodePathHeadsCancel(ks1: seq<PyValue>, ks2: seq<PyValue>)
    requires ks1 != [] && ks2 != [] && PipeFreeKey(ks1[0]) && PipeFreeKey(ks2[0])
    requires EncodePath(ks1).Ok? && EncodePath(ks1) == EncodePath(ks2)
    ensures EncodeKey(ks1[0]) == EncodeKey(ks2[0])
    ensures EncodePath(ks1[1..]).Ok? && EncodePath(ks1[1..]) == EncodePath(ks2[1..])
  {
    var h1, t1, h2, t2 := ks1[0], ks1[1..], ks2[0], ks2[1..];
    assert ks1 == [h1] + t1 && ks2 == [h2] + t2;
    EncodePathCons(h1, t1);
    EncodePathCons(h2, t2);
    PipeFreeKeyIsSegment(h1);
    PipeFreeKeyIsSegment(h2);
    SegmentsCancel(EncodeKey(h1).value, EncodePath(t1).value, EncodeKey(h2).value, EncodePath(t2).value);
  }

  /** A segment followed by anything splits uniquely. */
  lemma SegmentsCancel(a: Bytes, x: Bytes, b: Bytes, y: Bytes)
    requires IsSegment(a) && IsSegment(b) && a + x == b + y
    ensures a == b && x == y
  {
    assert b <= a + x by {
      assert (b + y)[..|b|] == b;
    }
    SegmentPrefix(a, b, x);
    assert x == (a + x)[|a|..];
    assert y == (b + y)[|b|..];
  }

  /** DictDBs under different variable names (without `|`) never share a location. */
  lemma DictDbsIsolated(dbPrefix: Bytes, var1: string, var2: string, depth: int, keys1: PyValue, keys2: PyValue)
    requires '|' !in var1 && '|' !in var2 && var1 != var2
    requires DictLocation(dbPrefix + EncodeKey(PStr(var1)).value, depth, keys1).Ok?
    requires DictLocation(dbPrefix + EncodeKey(PStr(var2)).value, depth, keys2).Ok?
    ensures DictLocation(dbPrefix + EncodeKey(PStr(var1)).value, depth, keys1)
            != DictLocation(dbPrefix + EncodeKey(PStr(var2)).value, depth, keys2)
  {
    var a, b := EncodeKey(PStr(var1)).value, EncodeKey(PStr(var2)).value;
    PipeFreeKeyIsSegment(PStr(var1));
    PipeFreeKeyIsSegment(PStr(var2));
    if EncodeKey(PStr(var1)) == EncodeKey(PStr(var2)) {
      EncodeKeyInjectiveOnStrs(var1, var2);
    }
    SegmentNamespacesDisjoint(dbPrefix, a, b,
      DictLocation(dbPrefix + a, depth, keys1).value, DictLocation(dbPrefix + b, depth, keys2).value);
  }

  /** Bytes under two different segments of one prefix differ. */
  lemma SegmentNamespacesDisjoint(dbPrefix: Bytes, a: Bytes, b: Bytes, loc1: Bytes, loc2: Bytes)
    requires IsSegment(a) && IsSegment(b) && a != b
    requires dbPrefix + a <= loc1 && dbPrefix + b <= loc2
    ensures loc1 != loc2
  {
    var x := loc2[|dbPrefix + b|..];
    assert loc2 == dbPrefix + b + x;
    DistinctSegmentsNotPrefix(dbPrefix, b, a, x);
  }

  // ------------------------------------------------------ ListDB specification

  /** The stored key of the list size, `encode_key('size')`. */
  function SizeKey(prefix: Bytes): Bytes
  {
    prefix + EncodeKey(PStr("size")).value
  }

  /**
   * `ListDB.__get_size`: the stored size decoded as an int, 0 when nothing
   * is stored (or 0 is); a malformed stored size fails.
   */
  function StoredSize(m: Entries, prefix: Bytes): (r: Result<int>)
    ensures SizeKey(prefix) !in m ==> r == Ok(0)
    ensures r.Err? ==> r.failure == MalformedStoredValue
  {
    var decoded := DecodeObject(Lookup(m, SizeKey(prefix)), IntType);
    if decoded.Err? then Err(decoded.failure)
    else if decoded.value.None? then Ok(0)
    else
      var n := decoded.value.value;
      Ok(if n.PInt? && n.i != 0 then n.i else 0)
  }

  /** A size stored as `hex(n)` reads back as `n`. */
  lemma StoredSizeReads(m: Entries, prefix: Bytes, n: int)
    requires Lookup(m, SizeKey(prefix)) == Some(Encode(Hex(n)))
    ensures StoredSize(m, prefix) == Ok(n)
  {
    DecodeEncode(Hex(n));
    ParseHex(n);
  }

  /** `ListDB.put`: the encoded value under `encode_key(size)`; the size is not written back. */
  function ListPut(m: Entries, prefix: Bytes, size: int, value: PyValue): (r: Result<Entries>)
    ensures r.Ok? <==> IsStorable(value)
    ensures r.Ok? ==> r.value.Keys == m.Keys + {prefix + EncodeKey(PInt(size)).value}
    ensures r.Ok? ==> Lookup(r.value, prefix + EncodeKey(PInt(size)).value) == Some(EncodeValue(value).value)
    ensures r.Ok? ==> forall k :: k != prefix + EncodeKey(PInt(size)).value ==> Lookup(r.value, k) == Lookup(m, k)
  {
    var ev := EncodeValue(value);
    if ev.Err? then Err(ev.failure) else Ok(m[prefix + EncodeKey(PInt(size)).value := ev.value])
  }

  /** An element key, `hex(n)` and `|`, is never the size key "size|". */
  lemma ElementKeyIsNotSizeKey(prefix: Bytes, n: int)
    ensures prefix + EncodeKey(PInt(n)).value != SizeKey(prefix)
  {
    HexShape(n);
    var h := Hex(n);
    assert h[0] == '0' || h[0] == '-';
    EncodeAppend(h, "|");
    assert Encode(h + "|") == EncodeChar(h[0]) + Encode((h + "|")[1..]);
    assert EncodeKey(PInt(n)).value[0] == EncodeChar(h[0])[0];
    assert EncodeKey(PStr("size")).value[0] == 0x73;
    assert (prefix + EncodeKey(PInt(n)).value)[|prefix|] != SizeKey(prefix)[|prefix|];
  }

  /**
   * `put` never changes the stored size, so a ListDB opened again over the
   * same store starts from the size stored before, and its first `put`
   * overwrites the element that the first `put` of the earlier ListDB wrote.
   */
  lemma ReopenedListOverwrites(m: Entries, prefix: Bytes, v1: PyValue, v2: PyValue)
    requires StoredSize(m, prefix).Ok?
    requires IsStorable(v1) && IsStorable(v2)
    ensures StoredSize(ListPut(m, prefix, StoredSize(m, prefix).value, v1).value, prefix) == StoredSize(m, prefix)
    ensures var size := StoredSize(m, prefix).value;
            var m1 := ListPut(m, prefix, size, v1).value;
            var m2 := ListPut(m1, prefix, StoredSize(m1, prefix).value, v2).value;
            Lookup(m2, prefix + EncodeKey(PInt(size)).value) == Some(EncodeValue(v2).value)
  {
    var size := StoredSize(m, prefix).value;
    ElementKeyIsNotSizeKey(prefix, size);
    var m1 := ListPut(m, prefix, size, v1).value;
    assert Lookup(m1, SizeKey(prefix)) == Lookup(m, SizeKey(prefix));
  }

  /** Successive puts of one ListDB go to different keys: the list never overwrites itself. */
  lemma ListPutsDistinct(prefix: Bytes, i: int, j: int)
    requires i != j
    ensures prefix + EncodeKey(PInt(i)).value != prefix + EncodeKey(PInt(j)).value
  {
    if EncodeKey(PInt(i)) == EncodeKey(PInt(j)) {
      EncodeKeyInjectiveOnInts(i, j);
    }
    assert (prefix + EncodeKey(PInt(i)).value)[|prefix|..] == EncodeKey(PInt(i)).value;
    assert (prefix + EncodeKey(PInt(j)).value)[|prefix|..] == EncodeKey(PInt(j)).value;
  }

  // ------------------------------------------------------ VarDB specification

  /** `VarDB.set`: the encoded value under the variable's own key. */
  function VarSet(m: Entries, key: Bytes, value: PyValue): (r: Result<Entries>)
    ensures r.Ok? <==> IsStorable(value)
    ensures r.Ok? ==> Lookup(r.value, key) == Some(EncodeValue(value).value)
    ensures r.Ok? ==> forall k :: k != key ==> Lookup(r.value, k) == Lookup(m, k)
  {
    var ev := EncodeValue(value);
    if ev.Err? then Err(ev.failure) else Ok(m[key := ev.value])
  }

  /** Set then get of a VarDB gives the value back when read as its own type. */
  lemma VarSetThenGet(m: Entries, key: Bytes, value: PyValue)
    requires IsStorable(value)
    ensures DecodeObject(Lookup(VarSet(m, key, value).value, key), TypeOf(value)) == Ok(Some(value))
  {
    ValueRoundTrip(value);
  }

  /**
   * A VarDB and a DictDB of the same name share the namespace prefix, but the
   * VarDB's single key is that prefix itself, which no DictDB location equals.
   */
  lemma VarDbBesideDictDb(dbPrefix: Bytes, name: string, depth: int, keys: PyValue)
    requires DictLocation(dbPrefix + EncodeKey(PStr(name)).value, depth, keys).Ok?
    ensures DictLocation(dbPrefix + EncodeKey(PStr(name)).value, depth, keys).value
            != dbPrefix + EncodeKey(PStr(name)).value
  {
    var ks := CheckTupleKeys(keys, depth).value;
    EncodePathLast(ks);
    var ek := EncodeKey(ks[|ks| - 1]).value;
    assert |ek| > 0;
    assert |EncodePath(ks).value| > 0;
  }

  // ------------------------------------------------------ the containers

  /** `DictDB`: its namespace is the database handle's prefix followed by `encode_key(var_key)`. */
  class DictDB {
    const store: Store
    const prefix: Bytes
    const valueType: ValueType
    const depth: int

    constructor (varKey: string, store: Store, dbPrefix: Bytes, valueType: ValueType, depth: int)
      ensures this.store == store && this.valueType == valueType && this.depth == depth
      ensures prefix == dbPrefix + EncodeKey(PStr(varKey)).value
    {
      this.store := store;
      this.prefix := dbPrefix + EncodeKey(PStr(varKey)).value;
      this.valueType := valueType;
      this.depth := depth;
    }

    /** `__setitem__`: a failure leaves the store as it was. */
    method SetItem(keys: PyValue, value: PyValue) returns (failure: Option<Failure>)
      modifies store
      ensures match DictSet(old(store.entries), prefix, depth, keys, value)
              case Ok(m) => failure.None? && store.entries == m
              case Err(f) => failure == Some(f) && store.entries == old(store.entries)
    {
      var checked := CheckTupleKeys(keys, depth);
      if checked.Err? {
        return Some(checked.failure);
      }
      var ks := checked.value;
      if |ks| == 0 {
        return Some(EmptyKeyTuple);
      }
      var subDb := prefix;
      var i := 0;
      while i < |ks| - 1
        invariant 0 <= i <= |ks| - 1
        invariant store.entries == old(store.entries)
        invariant EncodePath(ks[..i]).Ok? && subDb == prefix + EncodePath(ks[..i]).value
      {
        var ek := EncodeKey(ks[i]);
        if ek.Err? {
          DictWalkFails(store.entries, prefix, depth, keys, value, valueType, i);
          return Some(ek.failure);
        }
        EncodePathPrefixStep(ks, i, prefix, subDb);
        subDb := subDb + ek.value;
        i := i + 1;
      }
      assert ks[..i] == ks[..|ks| - 1];
      DictSetLast(store.entries, prefix, depth, keys, value, subDb);
      var ev := EncodeValue(value);
      if ev.Err? {
        return Some(ev.failure);
      }
      var last := EncodeKey(ks[i]);
      if last.Err? {
        return Some(last.failure);
      }
      store.Put(subDb + last.value, ev.value);
      failure := None;
    }

    /** `__getitem__`. */
    method GetItem(keys: PyValue) returns (r: Result<Option<PyValue>>)
      ensures r == DictGet(store.entries, prefix, depth, keys, valueType)
    {
      var checked := CheckTupleKeys(keys, depth);
      if checked.Err? {
        return Err(checked.failure);
      }
      var ks := checked.value;
      if |ks| == 0 {
        return Err(EmptyKeyTuple);
      }
      var subDb := prefix;
      var i := 0;
      while i < |ks| - 1
        invariant 0 <= i <= |ks| - 1
        invariant EncodePath(ks[..i]).Ok? && subDb == prefix + EncodePath(ks[..i]).value
      {
        var ek := EncodeKey(ks[i]);
        if ek.Err? {
          DictWalkFails(store.entries, prefix, depth, keys, PNone, valueType, i);
          return Err(ek.failure);
        }
        EncodePathPrefixStep(ks, i, prefix, subDb);
        subDb := subDb + ek.value;
        i := i + 1;
      }
      assert ks[..i] == ks[..|ks| - 1];
      DictGetLast(store.entries, prefix, depth, keys, valueType, subDb);
      var last := EncodeKey(ks[i]);
      if last.Err? {
        return Err(last.failure);
      }
      r := DecodeObject(store.Get(subDb + last.value), valueType);
    }
  }

  /** `ListDB`: the size is read once, when the list is opened, and then kept in memory. */
  class ListDB {
    const store: Store
    const prefix: Bytes
    const valueType: ValueType
    var size: int

    constructor (store: Store, prefix: Bytes, valueType: ValueType, size: int)
      ensures this.store == store && this.prefix == prefix && this.valueType == valueType && this.size == size
    {
      this.store := store;
      this.prefix := prefix;
      this.valueType := valueType;
      this.size := size;
    }

    /** `ListDB(var_key, db, value_type)`: opening fails when the stored size is malformed. */
    static method Open(varKey: string, store: Store, dbPrefix: Bytes, valueType: ValueType) returns (r: Result<ListDB>)
      ensures var prefix := dbPrefix + EncodeKey(PStr(varKey)).value;
              match StoredSize(store.entries, prefix)
              case Ok(n) => r.Ok? && fresh(r.value) && r.value.store == store && r.value.prefix == prefix
                            && r.value.valueType == valueType && r.value.size == n
              case Err(f) => r == Err(f)
    {
      var prefix := dbPrefix + EncodeKey(PStr(varKey)).value;
      var stored := DecodeObject(store.Get(SizeKey(prefix)), IntType);
      if stored.Err? {
        return Err(stored.failure);
      }
      var size := 0;
      if stored.value.Some? && stored.value.value.PInt? && stored.value.value.i != 0 {
        size := stored.value.value.i;
      }
      var list := new ListDB(store, prefix, valueType, size);
      r := Ok(list);
    }

    /** `put`: a value that cannot be encoded changes nothing. */
    method Put(value: PyValue) returns (failure: Option<Failure>)
      modifies this, store
      ensures match ListPut(old(store.entries), prefix, old(size), value)
              case Ok(m) => failure.None? && store.entries == m && size == old(size) + 1
              case Err(f) => failure == Some(f) && store.entries == old(store.entries) && size == old(size)
    {
      var ev := EncodeValue(value);
      if ev.Err? {
        return Some(ev.failure);
      }
      store.Put(prefix + EncodeKey(PInt(size)).value, ev.value);
      size := size + 1;
      failure := None;
    }

    /** `pop` raises. */
    method Pop() returns (failure: Failure)
      ensures failure == NotImplementedOp
    {
      failure := NotImplementedOp;
    }

    /** `get` raises whatever the keys. */
    method Get(keys: PyValue) returns (r: Result<PyValue>)
      ensures r == Err(NotImplementedOp)
    {
      r := Err(NotImplementedOp);
    }
  }

  /** `VarDB`: one value stored directly in the database handle under `encode_key(var_key)`. */
  class VarDB {
    const store: Store
    const key: Bytes
    const valueType: ValueType

    constructor (varKey: string, store: Store, dbPrefix: Bytes, valueType: ValueType)
      ensures this.store == store && this.valueType == valueType
      ensures key == dbPrefix + EncodeKey(PStr(varKey)).value
    {
      this.store := store;
      this.key := dbPrefix + EncodeKey(PStr(varKey)).value;
      this.valueType := valueType;
    }

    /** `set`: a value that cannot be encoded changes nothing. */
    method Set(value: PyValue) returns (failure: Option<Failure>)
      modifies store
      ensures match VarSet(old(store.entries), key, value)
              case Ok(m) => failure.None? && store.entries == m
              case Err(f) => failure == Some(f) && store.entries == old(store.entries)
    {
      var ev := EncodeValue(value);
      if ev.Err? {
        return Some(ev.failure);
      }
      store.Put(key, ev.value);
      failure := None;
    }

    /** `get`: `None` when nothing is stored. */
    method Get() returns (r: Result<Option<PyValue>>)
      ensures r == DecodeObject(Lookup(store.entries, key), valueType)
      ensures key !in store.entries ==> r == Ok(None)
    {
      r := DecodeObject(store.Get(key), valueType);
    }
  }
}
