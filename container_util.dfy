/**
 * `ContainerUtil` of icon_container_db.py: the stateless codec between typed
 * values and the bytes of the store, and the bulk `put_to_db` / `get_from_db`
 * that fan a nested dict or sequence out into nested sub-namespaces.
 *
 * The source module imports `IconScoreBaseException` from the exception module,
 * which defines no such name (it defines `IconServiceBaseException`), so as
 * written the module cannot even be imported.  The model follows the evident
 * intent: every `raise IconScoreBaseException(...)` is one error family, told
 * apart here only by its reason.
 */
module ContainerUtil {
  import opened Wrappers
  import opened Utf8
  import opened HexText
  import opened PyValues
  import opened Storage

  datatype Failure =
    | CannotEncodeKey        // "can't encode key"
    | CannotEncodeValue      // "can't encode value"
    | BytesHaveNoEncode      // AttributeError of `bytes.encode` (the code as written)
    | CannotCastArgs         // DictDB: a key that is not int, str or Address
    | DepthOver              // DictDB: key count differs from the depth
    | EmptyKeyTuple          // ValueError of `*keys, last_key = ()`
    | MalformedStoredValue   // UnicodeDecodeError or ValueError while decoding
    | NotImplementedOp       // ListDB.pop / ListDB.get

  datatype Result<T> = Ok(value: T) | Err(failure: Failure)

  // ---------------------------------------------------------------- keys

  /** The text `__encode_key` renders: `hex(n)` for an int (a bool is an int), the string itself. */
  function KeyText(key: PyValue): (r: Result<string>)
    ensures r.Ok? <==> key.PInt? || key.PBool? || key.PStr?
    ensures r.Err? ==> r.failure == CannotEncodeKey
    ensures key.PInt? ==> ParseInt16(r.value) == Some(key.i)
    ensures key.PBool? ==> ParseInt16(r.value) == Some(if key.b then 1 else 0)
    ensures key.PStr? ==> r.value == key.s
  {
    match key
    case PBool(b) => ParseHex(if b then 1 else 0); Ok(Hex(if b then 1 else 0))
    case PInt(i) => ParseHex(i); Ok(Hex(i))
    case PStr(s) => Ok(s)
    case _ => Err(CannotEncodeKey)
  }

  /** `encode_key`: the key text followed by the delimiter `|`, as UTF-8 bytes. */
  function EncodeKey(key: PyValue): (r: Result<Bytes>)
    ensures r.Ok? <==> KeyText(key).Ok?
    ensures key.PInt? ==> r == Ok(Encode(Hex(key.i)) + [PIPE])
    ensures key.PBool? ==> r == Ok(Encode(Hex(if key.b then 1 else 0)) + [PIPE])
    ensures key.PStr? ==> r == Ok(Encode(key.s) + [PIPE])
    ensures !(key.PInt? || key.PBool? || key.PStr?) ==> r == Err(CannotEncodeKey)
  {
    match KeyText(key)
    case Err(f) => Err(f)
    case Ok(text) =>
      EncodeAppend(text, "|");
      assert Encode("|") == EncodeChar('|') + Encode([]) == [PIPE];
      Ok(Encode(text + "|"))
  }

  /** `__remove_prefix_from_key`: `key[:-1]`, which drops the trailing delimiter. */
  function RemovePrefixFromKey(key: Bytes): (r: Bytes)
    ensures |key| > 0 ==> r + [key[|key| - 1]] == key
    ensures |key| == 0 ==> r == []
  {
    if |key| == 0 then [] else key[..|key| - 1]
  }

  /** `remove_prefix_from_iters`: the same entries with every key trimmed. */
  function RemovePrefixFromIters(entries: seq<(Bytes, Bytes)>): (r: seq<(Bytes, Bytes)>)
    ensures |r| == |entries|
    ensures forall i :: 0 <= i < |r| ==> r[i].1 == entries[i].1
    ensures forall i :: 0 <= i < |r| && |entries[i].0| > 0 ==> r[i].0 + [entries[i].0[|entries[i].0| - 1]] == entries[i].0
    ensures forall i :: 0 <= i < |r| && |entries[i].0| == 0 ==> r[i].0 == []
  {
    seq(|entries|, i requires 0 <= i < |entries| => (RemovePrefixFromKey(entries[i].0), entries[i].1))
  }

  /** Dropping the last byte of an encoded key and decoding gives the key text back. */
  lemma RemovePrefixRecoversKeyText(key: PyValue)
    requires EncodeKey(key).Ok?
    ensures Decode(RemovePrefixFromKey(EncodeKey(key).value)) == Some(KeyText(key).value)
  {
    var text := KeyText(key).value;
    assert (Encode(text) + [PIPE])[..|Encode(text)|] == Encode(text);
    DecodeEncode(text);
  }

  /** Iterating a namespace whose keys were made by `encode_key` hands out each key's text. */
  lemma IteratedKeysRecoverText(entries: seq<(Bytes, Bytes)>, keys: seq<PyValue>)
    requires |keys| == |entries|
    requires forall i :: 0 <= i < |keys| ==> EncodeKey(keys[i]) == Ok(entries[i].0)
    ensures forall i :: 0 <= i < |keys| ==>
      EncodeKey(keys[i]).Ok? && Decode(RemovePrefixFromIters(entries)[i].0) == Some(KeyText(keys[i]).value)
  {
    forall i | 0 <= i < |keys|
      ensures EncodeKey(keys[i]).Ok? && Decode(RemovePrefixFromIters(entries)[i].0) == Some(KeyText(keys[i]).value)
    {
      RemovePrefixRecoversKeyText(keys[i]);
    }
  }

  /** Two int keys with the same encoding are the same int. */
  lemma EncodeKeyInjectiveOnInts(m: int, n: int)
    requires EncodeKey(PInt(m)) == EncodeKey(PInt(n))
    ensures m == n
  {
    var em, en := Encode(Hex(m)), Encode(Hex(n));
    assert (em + [PIPE])[..|em|] == em;
    assert (en + [PIPE])[..|en|] == en;
    EncodeInjective(Hex(m), Hex(n));
    HexInjective(m, n);
  }

  /** Two str keys with the same encoding are the same string. */
  lemma EncodeKeyInjectiveOnStrs(s: string, t: string)
    requires EncodeKey(PStr(s)) == EncodeKey(PStr(t))
    ensures s == t
  {
    var es, et := Encode(s), Encode(t);
    assert (es + [PIPE])[..|es|] == es;
    assert (et + [PIPE])[..|et|] == et;
    EncodeInjective(s, t);
  }

  /** Across types the encoding is not injective: 1, True and "0x1" share a key. */
  lemma EncodeKeyCollidesAcrossTypes()
    ensures EncodeKey(PInt(1)) == EncodeKey(PStr("0x1")) == EncodeKey(PBool(true))
  {
    assert Hex(1) == "0x1";
  }

  /** A str key holding `|` can make one encoded key a proper prefix of another. */
  lemma PipeInStrKeyBreaksPrefixFreedom()
    ensures EncodeKey(PStr("a")).Ok? && EncodeKey(PStr("a|b")).Ok?
    ensures EncodeKey(PStr("a")).value < EncodeKey(PStr("a|b")).value
  {
    assert EncodeKey(PStr("a")).value == [0x61, PIPE];
    assert EncodeKey(PStr("a|b")).value == [0x61, PIPE, 0x62, PIPE];
  }

  /** A key whose encoding holds the delimiter only at its end: an int, a bool, or a str without `|`. */
  predicate PipeFreeKey(key: PyValue) {
    key.PInt? || key.PBool? || (key.PStr? && '|' !in key.s)
  }

  /** Bytes that end with the delimiter and hold it nowhere else. */
  predicate IsSegment(b: Bytes) {
    |b| > 0 && b[|b| - 1] == PIPE && PIPE !in b[..|b| - 1]
  }

  lemma PipeFreeKeyIsSegment(key: PyValue)
    requires PipeFreeKey(key)
    ensures EncodeKey(key).Ok? && IsSegment(EncodeKey(key).value)
  {
    var text := KeyText(key).value;
    if key.PStr? {
      PipeInEncode(text);
    } else {
      HexShape(if key.PInt? then key.i else if key.b then 1 else 0);
      assert '|' !in text;
      PipeInEncode(text);
    }
    assert (Encode(text) + [PIPE])[..|Encode(text)|] == Encode(text);
  }

  /** A segment that is a prefix of another segment followed by anything is that segment. */
  lemma SegmentPrefix(a: Bytes, b: Bytes, x: Bytes)
    requires IsSegment(a) && IsSegment(b)
    ensures b <= a + x ==> b == a
  {
    if b <= a + x {
      var k := if |a| < |b| then |a| else |b|;
      assert b[k - 1] == (a + x)[k - 1] == a[k - 1];
      assert b == (a + x)[..|b|];
    }
  }

  /**
   * Prefix freedom among delimiter-free keys: no such encoded key is a byte
   * prefix of a different one.
   */
  lemma EncodeKeyPrefixFree(k1: PyValue, k2: PyValue)
    requires PipeFreeKey(k1) && PipeFreeKey(k2)
    requires EncodeKey(k1).value <= EncodeKey(k2).value
    ensures EncodeKey(k1) == EncodeKey(k2)
  {
    PipeFreeKeyIsSegment(k1);
    PipeFreeKeyIsSegment(k2);
    assert EncodeKey(k2).value + [] == EncodeKey(k2).value;
    SegmentPrefix(EncodeKey(k2).value, EncodeKey(k1).value, []);
  }

  // -------------------------------------------------------------- values

  /** The `value_type` of a storable value. */
  function TypeOf(v: PyValue): ValueType {
    match v
    case PInt(_) => IntType
    case PBool(_) => BoolType
    case PStr(_) => StrType
    case PAddress(_) => AddressType
    case PBytes(_) => BytesType
    case _ => OtherType
  }

  predicate IsStorable(v: PyValue) {
    v.PInt? || v.PBool? || v.PStr? || v.PAddress? || v.PBytes?
  }

  /**
   * `encode_value` with its evident intent: ints and bools as the UTF-8 of
   * `hex`, strings and addresses as the UTF-8 of their text, bytes unchanged.
   * A bool takes the int branch (bool is an int in Python), with the same
   * result as the bool branch it never reaches.
   */
  function EncodeValue(v: PyValue): (r: Result<Bytes>)
    ensures r.Ok? <==> IsStorable(v)
    ensures r.Err? ==> r.failure == CannotEncodeValue
    ensures v.PBytes? ==> r == Ok(v.data)
  {
    match v
    case PInt(i) => Ok(Encode(Hex(i)))
    case PBool(b) => Ok(Encode(Hex(if b then 1 else 0)))
    case PStr(s) => Ok(Encode(s))
    case PAddress(a) => Ok(Encode(a.text))
    case PBytes(data) => Ok(data)
    case _ => Err(CannotEncodeValue)
  }

  /**
   * `encode_value` as written: `__encode_value` hands bytes through and
   * `encode_value` then calls `.encode()` on them, which bytes do not have.
   */
  function EncodeValueAsWritten(v: PyValue): (r: Result<Bytes>)
    ensures r.Ok? <==> IsStorable(v) && !v.PBytes?
  {
    match v
    case PBytes(_) => Err(BytesHaveNoEncode)
    case _ => EncodeValue(v)
  }

  /** As written, no bytes value can be stored, although its intended encoding is itself. */
  lemma BytesValueRejectedAsWritten(data: Bytes)
    ensures EncodeValueAsWritten(PBytes(data)) == Err(BytesHaveNoEncode)
    ensures EncodeValue(PBytes(data)) == Ok(data)
    ensures DecodeObject(Some(data), BytesType) == Ok(Some(PBytes(data)))
  {
  }

  /**
   * `decode_object`: nothing stored decodes to `None` whatever the type; an
   * unknown `value_type` also gives `None`; otherwise the bytes are read as the
   * requested type, with no inference from their content.
   */
  function DecodeObject(value: Option<Bytes>, t: ValueType): (r: Result<Option<PyValue>>)
    ensures value.None? || t == OtherType ==> r == Ok(None)
    ensures r.Ok? && r.value.Some? ==> TypeOf(r.value.value) == t
    ensures r.Err? ==> r.failure == MalformedStoredValue && (t == IntType || t == BoolType || t == StrType || t == AddressType)
  {
    if value.None? then Ok(None)
    else
      var data := value.value;
      match t
      case IntType =>
        (match Decode(data)
         case None => Err(MalformedStoredValue)
         case Some(text) =>
           match ParseInt16(text)
           case None => Err(MalformedStoredValue)
           case Some(n) => Ok(Some(PInt(n))))
      case StrType =>
        (match Decode(data)
         case None => Err(MalformedStoredValue)
         case Some(text) => Ok(Some(PStr(text))))
      case AddressType =>
        (match Decode(data)
         case None => Err(MalformedStoredValue)
         case Some(text) => Ok(Some(PAddress(Address(text)))))
      case BoolType =>
        (match Decode(data)
         case None => Err(MalformedStoredValue)
         case Some(text) =>
           match ParseInt16(text)
           case None => Err(MalformedStoredValue)
           case Some(n) => Ok(Some(PBool(n != 0))))
      case BytesType => Ok(Some(PBytes(data)))
      case OtherType => Ok(None)
  }

  /**
   * Round trip: decoding an encoded value as its own type gives it back, for
   * ints (negative ones included), bools, strings, addresses and bytes.
   */
  lemma ValueRoundTrip(v: PyValue)
    requires IsStorable(v)
    ensures DecodeObject(Some(EncodeValue(v).value), TypeOf(v)) == Ok(Some(v))
  {
    match v
    case PInt(i) =>
      DecodeEncode(Hex(i));
      ParseHex(i);
    case PBool(b) =>
      DecodeEncode(Hex(if b then 1 else 0));
      ParseHex(if b then 1 else 0);
    case PStr(s) =>
      DecodeEncode(s);
    case PAddress(a) =>
      DecodeEncode(a.text);
    case PBytes(_) =>
  }

  /** A bool is stored as the text "0x0" or "0x1". */
  lemma BoolEncoding(b: bool)
    ensures EncodeValue(PBool(b)) == Ok(Encode(if b then "0x1" else "0x0"))
  {
    assert Hex(1) == "0x1";
    assert Hex(0) == "0x0";
  }

  // ------------------------------------------------------ bulk put and get

  /** The (key, value) pairs `__put_to_db_internal` walks: a dict's items, a sequence's `enumerate`. */
  function Entries(v: PyValue): (r: seq<(PyValue, PyValue)>)
    ensures v.PDict? ==> r == v.items
    ensures v.PList? ==> |r| == |v.elems| && forall i :: 0 <= i < |r| ==> r[i] == (PInt(i), v.elems[i])
    ensures !IsContainer(v) ==> r == []
  {
    match v
    case PDict(items) => items
    case PList(elems) => Enumerate(elems, 0)
    case _ => []
  }

  function Enumerate(elems: seq<PyValue>, start: int): (r: seq<(PyValue, PyValue)>)
    ensures |r| == |elems|
    ensures forall i :: 0 <= i < |r| ==> r[i] == (PInt(start + i), elems[i])
  {
    if elems == [] then [] else [(PInt(start), elems[0])] + Enumerate(elems[1..], start + 1)
  }

  /** A size that shrinks from a container to its entries, for termination. */
  function Size(v: PyValue): (n: nat)
    ensures n >= 1
  {
    match v
    case PList(elems) => 1 + ElemsSize(elems)
    case PDict(items) => 1 + ItemsSize(items)
    case _ => 1
  }

  function ElemsSize(elems: seq<PyValue>): nat
  {
    if elems == [] then 0 else 2 + Size(elems[0]) + ElemsSize(elems[1..])
  }

  function ItemsSize(items: seq<(PyValue, PyValue)>): nat
  {
    if items == [] then 0
    else
      assert items[0] in items;
      assert items[0].0 < items[0] && items[0].1 < items[0];
      1 + Size(items[0].0) + Size(items[0].1) + ItemsSize(items[1..])
  }

  lemma {:induction false} EnumerateSize(elems: seq<PyValue>, start: int)
    ensures ItemsSize(Enumerate(elems, start)) == ElemsSize(elems)
  {
    if elems != [] {
      EnumerateSize(elems[1..], start + 1);
      assert Enumerate(elems, start)[1..] == Enumerate(elems[1..], start + 1);
    }
  }

  lemma {:induction false} ItemSizeBound(items: seq<(PyValue, PyValue)>, j: nat)
    requires j < |items|
    ensures Size(items[j].1) < ItemsSize(items)
  {
    if j > 0 {
      ItemSizeBound(items[1..], j - 1);
    }
  }

  lemma EntriesSmaller(v: PyValue)
    ensures ItemsSize(Entries(v)) < Size(v)
  {
    if v.PList? {
      EnumerateSize(v.elems, 0);
    }
  }

  lemma ChildSmaller(v: PyValue, j: nat)
    requires j < |Entries(v)|
    ensures Size(Entries(v)[j].1) < Size(v)
  {
    EntriesSmaller(v);
    ItemSizeBound(Entries(v), j);
  }

  /** The store after a bulk write, and the failure that stopped it, if any. */
  datatype Written = Written(entries: Entries, failure: Option<Failure>)

  /**
   * One step of `__put_to_db_internal`: a nested container goes one level
   * deeper under the encoded key; anything else is encoded and written at the
   * encoded key.  Writes made before a failure stay.
   */
  function PutValue(m: Entries, prefix: Bytes, key: PyValue, value: PyValue): (w: Written)
    ensures EncodeKey(key).Err? ==> w == Written(m, Some(CannotEncodeKey))
    ensures EncodeKey(key).Ok? && !IsContainer(value) ==> (w.failure.None? <==> IsStorable(value))
    ensures w.failure.Some? ==> w.failure.value in {CannotEncodeKey, CannotEncodeValue}
    decreases Size(value)
  {
    match EncodeKey(key)
    case Err(f) => Written(m, Some(f))
    case Ok(ek) =>
      if IsContainer(value) then
        EntriesSmaller(value);
        PutItems(m, prefix + ek, Entries(value))
      else
        match EncodeValue(value)
        case Err(f) => Written(m, Some(f))
        case Ok(ev) => Written(m[prefix + ek := ev], None)
  }

  /** `__put_to_db_internal`: the entries in order, stopping at the first failure. */
  function PutItems(m: Entries, prefix: Bytes, items: seq<(PyValue, PyValue)>): (w: Written)
    ensures items == [] ==> w == Written(m, None)
    ensures w.failure.Some? ==> w.failure.value in {CannotEncodeKey, CannotEncodeValue}
    decreases ItemsSize(items)
  {
    if items == [] then Written(m, None)
    else
      var w := PutValue(m, prefix, items[0].0, items[0].1);
      if w.failure.Some? then w else PutItems(w.entries, prefix, items[1..])
  }

  /** `put_to_db`: a dict or a sequence is fanned out under `encode_key(db_key)`; anything else is ignored. */
  function PutToDb(m: Entries, prefix: Bytes, dbKey: PyValue, container: PyValue): (w: Written)
    ensures EncodeKey(dbKey).Err? ==> w == Written(m, Some(CannotEncodeKey))
    ensures !IsContainer(container) ==> w.entries == m
    ensures w.failure.Some? ==> w.failure.value in {CannotEncodeKey, CannotEncodeValue}
  {
    match EncodeKey(dbKey)
    case Err(f) => Written(m, Some(f))
    case Ok(ek) =>
      if IsContainer(container) then PutItems(m, prefix + ek, Entries(container)) else Written(m, None)
  }

  /** The concatenated encodings of a path of keys. */
  function EncodePath(keys: seq<PyValue>): (r: Result<Bytes>)
    ensures r.Err? ==> r.failure == CannotEncodeKey
  {
    if keys == [] then Ok([])
    else
      match EncodeKey(keys[0])
      case Err(f) => Err(f)
      case Ok(head) =>
        match EncodePath(keys[1..])
        case Err(f) => Err(f)
        case Ok(tail) => Ok(head + tail)
  }

  lemma EncodePathCons(k: PyValue, rest: seq<PyValue>)
    ensures EncodePath([k] + rest).Ok? <==> EncodeKey(k).Ok? && EncodePath(rest).Ok?
    ensures EncodePath([k] + rest).Ok? ==> EncodePath([k] + rest).value == EncodeKey(k).value + EncodePath(rest).value
  {
    assert ([k] + rest)[0] == k;
    assert ([k] + rest)[1..] == rest;
  }

  lemma {:induction false} EncodePathSnoc(keys: seq<PyValue>, k: PyValue)
    requires EncodePath(keys).Ok? && EncodeKey(k).Ok?
    ensures EncodePath(keys + [k]) == Ok(EncodePath(keys).value + EncodeKey(k).value)
  {
    if keys == [] {
      assert keys + [k] == [k] + [];
      assert EncodePath([]) == Ok([]);
      EncodePathCons(k, []);
      assert EncodeKey(k).value + [] == EncodeKey(k).value == EncodePath(keys).value + EncodeKey(k).value;
    } else {
      var first, rest := keys[0], keys[1..];
      assert keys == [first] + rest;
      assert keys + [k] == [first] + (rest + [k]);
      EncodePathCons(first, rest);
      EncodePathSnoc(rest, k);
      EncodePathCons(first, rest + [k]);
      ConcatAssoc(EncodeKey(first).value, EncodePath(rest).value, EncodeKey(k).value);
    }
  }

  /** A path encodes exactly when every key on it does. */
  lemma {:induction false} EncodePathOk(keys: seq<PyValue>)
    ensures EncodePath(keys).Ok? <==> forall i :: 0 <= i < |keys| ==> EncodeKey(keys[i]).Ok?
  {
    if keys != [] {
      EncodePathOk(keys[1..]);
      assert forall i :: 1 <= i < |keys| ==> keys[i] == keys[1..][i - 1];
    }
  }

  lemma EncodePathFails(keys: seq<PyValue>, i: nat)
    requires i < |keys| && EncodeKey(keys[i]).Err?
    ensures EncodePath(keys) == Err(CannotEncodeKey)
  {
    EncodePathOk(keys);
  }

  /**
   * `get_from_db`: walk `encode_key(db_key)` and every argument but the last
   * as sub-namespaces, read the last argument's key there and decode it.
   * No argument at all fails the unpacking `*args, last_arg = args`.
   */
  function GetFromDb(m: Entries, prefix: Bytes, dbKey: PyValue, args: seq<PyValue>, t: ValueType): (r: Result<Option<PyValue>>)
    ensures r.Ok? && r.value.Some? ==> TypeOf(r.value.value) == t
    ensures (EncodeKey(dbKey).Ok? && args != [] && EncodePath(args).Ok? &&
             Lookup(m, prefix + EncodeKey(dbKey).value + EncodePath(args).value).None?) ==> r == Ok(None)
    ensures args == [] ==> r.Err?
  {
    match EncodeKey(dbKey)
    case Err(f) => Err(f)
    case Ok(ek) =>
      if args == [] then Err(EmptyKeyTuple)
      else
        match EncodePath(args)
        case Err(f) => Err(f)
        case Ok(path) => DecodeObject(Lookup(m, prefix + ek + path), t)
  }

  lemma ConcatAssoc(a: Bytes, b: Bytes, c: Bytes)
    ensures a + b + c == a + (b + c)
  {
  }

  /** The last step of `get_from_db`: the key of the last argument under the namespace of the others. */
  lemma {:induction false} GetFromDbLast(m: Entries, prefix: Bytes, dbKey: PyValue, args: seq<PyValue>, subDb: Bytes, t: ValueType)
    requires EncodeKey(dbKey).Ok? && args != [] && EncodeKey(args[|args| - 1]).Ok?
    requires EncodePath(args[..|args| - 1]).Ok?
    requires subDb == prefix + EncodeKey(dbKey).value + EncodePath(args[..|args| - 1]).value
    ensures GetFromDb(m, prefix, dbKey, args, t)
            == DecodeObject(Lookup(m, subDb + EncodeKey(args[|args| - 1]).value), t)
  {
    var i := |args| - 1;
    EncodePathSnoc(args[..i], args[i]);
    assert args[..i] + [args[i]] == args;
    ConcatAssoc(prefix + EncodeKey(dbKey).value, EncodePath(args[..i]).value, EncodeKey(args[i]).value);
  }

  /** An argument that cannot be encoded fails the whole read with that argument's failure. */
  lemma GetFromDbFails(m: Entries, prefix: Bytes, dbKey: PyValue, args: seq<PyValue>, i: nat, t: ValueType)
    requires EncodeKey(dbKey).Ok? && i < |args| && EncodeKey(args[i]).Err?
    ensures GetFromDb(m, prefix, dbKey, args, t) == Err(EncodeKey(args[i]).failure)
  {
    EncodePathFails(args, i);
  }

  /** One more encodable argument extends the walked namespace by its key. */
  lemma EncodePathPrefixStep(args: seq<PyValue>, i: nat, base: Bytes, subDb: Bytes)
    requires i < |args| && EncodeKey(args[i]).Ok?
    requires EncodePath(args[..i]).Ok? && subDb == base + EncodePath(args[..i]).value
    ensures EncodePath(args[..i + 1]).Ok?
    ensures subDb + EncodeKey(args[i]).value == base + EncodePath(args[..i + 1]).value
  {
    EncodePathSnoc(args[..i], args[i]);
    assert args[..i + 1] == args[..i] + [args[i]];
    ConcatAssoc(base, EncodePath(args[..i]).value, EncodeKey(args[i]).value);
  }

  /**
   * A container every level of which can be stored without clashes: keys are
   * ints, bools or strings without `|`, sibling keys encode differently, and
   * every leaf is storable.
   */
  predicate WellKeyedValue(v: PyValue)
    decreases Size(v)
  {
    if IsContainer(v) then
      EntriesSmaller(v);
      WellKeyedItems(Entries(v))
    else
      IsStorable(v)
  }

  predicate WellKeyedItems(items: seq<(PyValue, PyValue)>)
    decreases ItemsSize(items)
  {
    && (forall i, j :: 0 <= i < j < |items| ==> EncodeKey(items[i].0) != EncodeKey(items[j].0))
    && (items == [] || (PipeFreeKey(items[0].0) && WellKeyedValue(items[0].1) && WellKeyedItems(items[1..])))
  }

  /** A path of entry indices from `v` down to a leaf. */
  predicate ValidPath(v: PyValue, path: seq<nat>)
    decreases Size(v)
  {
    if path == [] then !IsContainer(v)
    else
      && IsContainer(v)
      && path[0] < |Entries(v)|
      && (ChildSmaller(v, path[0]); ValidPath(Entries(v)[path[0]].1, path[1..]))
  }

  /** The dict keys and sequence indices along a path: the arguments `get_from_db` takes. */
  function PathKeys(v: PyValue, path: seq<nat>): (keys: seq<PyValue>)
    requires ValidPath(v, path)
    ensures |keys| == |path|
    decreases Size(v)
  {
    if path == [] then []
    else
      ChildSmaller(v, path[0]);
      [Entries(v)[path[0]].0] + PathKeys(Entries(v)[path[0]].1, path[1..])
  }

  /** The leaf a path ends at. */
  function LeafAt(v: PyValue, path: seq<nat>): PyValue
    requires ValidPath(v, path)
    decreases Size(v)
  {
    if path == [] then v
    else
      ChildSmaller(v, path[0]);
      LeafAt(Entries(v)[path[0]].1, path[1..])
  }

  lemma {:induction false} WellKeyedItemAt(items: seq<(PyValue, PyValue)>, j: nat)
    requires WellKeyedItems(items) && j < |items|
    ensures PipeFreeKey(items[j].0) && WellKeyedValue(items[j].1)
  {
    if j > 0 {
      WellKeyedItemAt(items[1..], j - 1);
    }
  }

  lemma {:induction false} PathKeysEncodable(v: PyValue, path: seq<nat>)
    requires WellKeyedValue(v) && ValidPath(v, path)
    ensures EncodePath(PathKeys(v, path)).Ok?
    ensures IsStorable(LeafAt(v, path))
    decreases Size(v)
  {
    if path != [] {
      ChildSmaller(v, path[0]);
      WellKeyedItemAt(Entries(v), path[0]);
      PathKeysEncodable(Entries(v)[path[0]].1, path[1..]);
    }
  }

  lemma {:induction false} PutValueSucceeds(m: Entries, prefix: Bytes, key: PyValue, value: PyValue)
    requires EncodeKey(key).Ok? && WellKeyedValue(value)
    ensures PutValue(m, prefix, key, value).failure.None?
    decreases Size(value)
  {
    if IsContainer(value) {
      EntriesSmaller(value);
      PutItemsSucceeds(m, prefix + EncodeKey(key).value, Entries(value));
    }
  }

  lemma {:induction false} PutItemsSucceeds(m: Entries, prefix: Bytes, items: seq<(PyValue, PyValue)>)
    requires WellKeyedItems(items)
    ensures PutItems(m, prefix, items).failure.None?
    decreases ItemsSize(items)
  {
    if items != [] {
      PutValueSucceeds(m, prefix, items[0].0, items[0].1);
      PutItemsSucceeds(PutValue(m, prefix, items[0].0, items[0].1).entries, prefix, items[1..]);
    }
  }

  lemma NotPrefixExtends(q: Bytes, e: Bytes, at: Bytes)
    requires !(q <= at)
    ensures !(q + e <= at)
  {
  }

  lemma {:induction false} PutValueFrame(m: Entries, prefix: Bytes, key: PyValue, value: PyValue, at: Bytes)
    requires EncodeKey(key).Ok? ==> !(prefix + EncodeKey(key).value <= at)
    ensures SameAt(m, PutValue(m, prefix, key, value).entries, at)
    decreases Size(value)
  {
    if EncodeKey(key).Ok? && IsContainer(value) {
      var q := prefix + EncodeKey(key).value;
      EntriesSmaller(value);
      forall i | 0 <= i < |Entries(value)| && EncodeKey(Entries(value)[i].0).Ok?
        ensures !(q + EncodeKey(Entries(value)[i].0).value <= at)
      {
        NotPrefixExtends(q, EncodeKey(Entries(value)[i].0).value, at);
      }
      PutItemsFrame(m, q, Entries(value), at);
    }
  }

  lemma {:induction false} PutItemsFrame(m: Entries, prefix: Bytes, items: seq<(PyValue, PyValue)>, at: Bytes)
    requires forall i :: 0 <= i < |items| && EncodeKey(items[i].0).Ok? ==> !(prefix + EncodeKey(items[i].0).value <= at)
    ensures SameAt(m, PutItems(m, prefix, items).entries, at)
    decreases ItemsSize(items)
  {
    if items != [] {
      PutValueFrame(m, prefix, items[0].0, items[0].1, at);
      var w := PutValue(m, prefix, items[0].0, items[0].1);
      if w.failure.None? {
        PutItemsFrame(w.entries, prefix, items[1..], at);
      }
    }
  }

  lemma PrefixCancel(p: Bytes, u: Bytes, v: Bytes)
    ensures p + u <= p + v <==> u <= v
  {
    if p + u <= p + v {
      assert u == (p + u)[|p|..] == (p + v)[|p|..|p| + |u|] == v[..|u|];
    }
  }

  /** Under one prefix, a key of one segment never lies in the namespace of a different segment. */
  lemma DistinctSegmentsNotPrefix(prefix: Bytes, a: Bytes, b: Bytes, x: Bytes)
    requires IsSegment(a) && IsSegment(b) && a != b
    ensures !(prefix + b <= prefix + a + x)
  {
    SegmentPrefix(a, b, x);
    PrefixCancel(prefix, b, a + x);
    assert prefix + a + x == prefix + (a + x);
  }

  lemma {:induction false} PutValueHit(m: Entries, prefix: Bytes, key: PyValue, value: PyValue, path: seq<nat>)
    requires EncodeKey(key).Ok? && WellKeyedValue(value) && ValidPath(value, path)
    ensures EncodePath(PathKeys(value, path)).Ok? && IsStorable(LeafAt(value, path))
    ensures Lookup(PutValue(m, prefix, key, value).entries,
                   prefix + EncodeKey(key).value + EncodePath(PathKeys(value, path)).value)
            == Some(EncodeValue(LeafAt(value, path)).value)
    decreases Size(value)
  {
    PathKeysEncodable(value, path);
    var q := prefix + EncodeKey(key).value;
    if path == [] {
      assert q + EncodePath(PathKeys(value, path)).value == q;
    } else {
      var items := Entries(value);
      var j := path[0];
      ChildSmaller(value, j);
      EntriesSmaller(value);
      assert PutValue(m, prefix, key, value) == PutItems(m, q, items);
      PutItemsHit(m, q, items, j, path[1..]);
      var head := EncodeKey(items[j].0).value;
      var tail := EncodePath(PathKeys(items[j].1, path[1..])).value;
      assert PathKeys(value, path) == [items[j].0] + PathKeys(items[j].1, path[1..]);
      assert ([items[j].0] + PathKeys(items[j].1, path[1..]))[1..] == PathKeys(items[j].1, path[1..]);
      assert EncodePath(PathKeys(value, path)).value == head + tail;
      assert q + (head + tail) == q + head + tail;
    }
  }

  /** The entries after the first never write inside the first entry's namespace. */
  lemma LaterItemsMissFirst(m: Entries, prefix: Bytes, items: seq<(PyValue, PyValue)>, tail: Bytes)
    requires WellKeyedItems(items) && items != []
    ensures EncodeKey(items[0].0).Ok?
    ensures SameAt(m, PutItems(m, prefix, items[1..]).entries, prefix + EncodeKey(items[0].0).value + tail)
  {
    WellKeyedItemAt(items, 0);
    var at := prefix + EncodeKey(items[0].0).value + tail;
    forall i | 0 <= i < |items[1..]| && EncodeKey(items[1..][i].0).Ok?
      ensures !(prefix + EncodeKey(items[1..][i].0).value <= at)
    {
      assert items[1..][i] == items[i + 1];
      LaterItemMissesFirst(prefix, items, i + 1, tail);
    }
    PutItemsFrame(m, prefix, items[1..], at);
  }

  lemma LaterItemMissesFirst(prefix: Bytes, items: seq<(PyValue, PyValue)>, i: nat, tail: Bytes)
    requires WellKeyedItems(items) && 0 < i < |items|
    ensures EncodeKey(items[0].0).Ok? && EncodeKey(items[i].0).Ok?
    ensures !(prefix + EncodeKey(items[i].0).value <= prefix + EncodeKey(items[0].0).value + tail)
  {
    WellKeyedItemAt(items, 0);
    WellKeyedItemAt(items, i);
    PipeFreeKeyIsSegment(items[0].0);
    PipeFreeKeyIsSegment(items[i].0);
    DistinctSegmentsNotPrefix(prefix, EncodeKey(items[0].0).value, EncodeKey(items[i].0).value, tail);
  }

  lemma PutItemsUnfold(m: Entries, prefix: Bytes, items: seq<(PyValue, PyValue)>)
    requires items != [] && PutValue(m, prefix, items[0].0, items[0].1).failure.None?
    ensures PutItems(m, prefix, items)
            == PutItems(PutValue(m, prefix, items[0].0, items[0].1).entries, prefix, items[1..])
  {
  }

  lemma {:induction false} PutItemsHit(m: Entries, prefix: Bytes, items: seq<(PyValue, PyValue)>, j: nat, rest: seq<nat>)
    requires WellKeyedItems(items) && j < |items| && ValidPath(items[j].1, rest)
    ensures EncodeKey(items[j].0).Ok? && IsStorable(LeafAt(items[j].1, rest))
    ensures EncodePath(PathKeys(items[j].1, rest)).Ok?
    ensures Lookup(PutItems(m, prefix, items).entries,
                   prefix + EncodeKey(items[j].0).value + EncodePath(PathKeys(items[j].1, rest)).value)
            == Some(EncodeValue(LeafAt(items[j].1, rest)).value)
    decreases ItemsSize(items)
  {
    WellKeyedItemAt(items, j);
    WellKeyedItemAt(items, 0);
    ItemSizeBound(items, j);
    ItemSizeBound(items, 0);
    PathKeysEncodable(items[j].1, rest);
    PutValueSucceeds(m, prefix, items[0].0, items[0].1);
    var w := PutValue(m, prefix, items[0].0, items[0].1);
    PutItemsUnfold(m, prefix, items);
    var tail := EncodePath(PathKeys(items[j].1, rest)).value;
    if j == 0 {
      PutValueHit(m, prefix, items[0].0, items[0].1, rest);
      LaterItemsMissFirst(w.entries, prefix, items, tail);
    } else {
      assert items[1..][j - 1] == items[j];
      PutItemsHit(w.entries, prefix, items[1..], j - 1, rest);
    }
  }

  /**
   * Round trip of the bulk write: after `put_to_db(db, k, c)` on a container
   * whose keys do not clash, `get_from_db(db, k, *keys)` along any path of
   * dict keys and sequence indices returns what decoding the stored leaf as
   * the requested type gives, and the leaf itself when asked for its own type.
   */
  lemma PutThenGet(m: Entries, prefix: Bytes, dbKey: PyValue, container: PyValue, path: seq<nat>, t: ValueType)
    requires EncodeKey(dbKey).Ok?
    requires IsContainer(container) && WellKeyedValue(container) && ValidPath(container, path)
    ensures PutToDb(m, prefix, dbKey, container).failure.None?
    ensures IsStorable(LeafAt(container, path))
    ensures GetFromDb(PutToDb(m, prefix, dbKey, container).entries, prefix, dbKey, PathKeys(container, path), t)
            == DecodeObject(Some(EncodeValue(LeafAt(container, path)).value), t)
    ensures GetFromDb(PutToDb(m, prefix, dbKey, container).entries, prefix, dbKey, PathKeys(container, path),
                      TypeOf(LeafAt(container, path)))
            == Ok(Some(LeafAt(container, path)))
  {
    PutValueSucceeds(m, prefix, dbKey, container);
    PutValueHit(m, prefix, dbKey, container, path);
    ValueRoundTrip(LeafAt(container, path));
  }

  /** `put_to_db` changes nothing outside the namespace of `encode_key(db_key)`. */
  lemma PutToDbStaysInNamespace(m: Entries, prefix: Bytes, dbKey: PyValue, container: PyValue, at: Bytes)
    requires EncodeKey(dbKey).Ok? ==> !(prefix + EncodeKey(dbKey).value <= at)
    ensures SameAt(m, PutToDb(m, prefix, dbKey, container).entries, at)
  {
    if IsContainer(container) {
      PutValueFrame(m, prefix, dbKey, container, at);
    }
  }

  /** `put_to_db` on the store. */
  method PutToStore(store: Store, prefix: Bytes, dbKey: PyValue, container: PyValue) returns (failure: Option<Failure>)
    modifies store
    ensures Written(store.entries, failure) == PutToDb(old(store.entries), prefix, dbKey, container)
  {
    var ek := EncodeKey(dbKey);
    if ek.Err? {
      return Some(ek.failure);
    }
    var subDb := prefix + ek.value;
    if IsContainer(container) {
      failure := PutEntriesToStore(store, subDb, Entries(container));
    } else {
      failure := None;
    }
  }

  /** `__put_to_db_internal` on the store: a loop over the entries that recurses into nested containers. */
  method PutEntriesToStore(store: Store, prefix: Bytes, items: seq<(PyValue, PyValue)>) returns (failure: Option<Failure>)
    modifies store
    ensures Written(store.entries, failure) == PutItems(old(store.entries), prefix, items)
    decreases ItemsSize(items)
  {
    var i := 0;
    while i < |items|
      invariant 0 <= i <= |items|
      invariant PutItems(old(store.entries), prefix, items) == PutItems(store.entries, prefix, items[i..])
    {
      ghost var before := store.entries;
      assert items[i..][0] == items[i] && items[i..][1..] == items[i + 1..];
      var (key, value) := items[i];
      var ek := EncodeKey(key);
      if ek.Err? {
        return Some(ek.failure);
      }
      var subDb := prefix + ek.value;
      if IsContainer(value) {
        ItemSizeBound(items, i);
        EntriesSmaller(value);
        var f := PutEntriesToStore(store, subDb, Entries(value));
        if f.Some? {
          return f;
        }
      } else {
        var ev := EncodeValue(value);
        if ev.Err? {
          return Some(ev.failure);
        }
        store.Put(prefix + ek.value, ev.value);
      }
      assert Written(store.entries, None) == PutValue(before, prefix, key, value);
      i := i + 1;
    }
    failure := None;
  }

  /** `get_from_db` on the store: a loop that narrows the namespace one argument at a time. */
  method GetFromStore(store: Store, prefix: Bytes, dbKey: PyValue, args: seq<PyValue>, valueType: ValueType)
    returns (r: Result<Option<PyValue>>)
    ensures r == GetFromDb(store.entries, prefix, dbKey, args, valueType)
  {
    var ek := EncodeKey(dbKey);
    if ek.Err? {
      return Err(ek.failure);
    }
    if |args| == 0 {
      return Err(EmptyKeyTuple);
    }
    var subDb := prefix + ek.value;
    var i := 0;
    while i < |args| - 1
      invariant 0 <= i <= |args| - 1
      invariant EncodePath(args[..i]).Ok? && subDb == prefix + ek.value + EncodePath(args[..i]).value
    {
      var k := EncodeKey(args[i]);
      if k.Err? {
        GetFromDbFails(store.entries, prefix, dbKey, args, i, valueType);
        return Err(k.failure);
      }
      EncodePathPrefixStep(args, i, prefix + ek.value, subDb);
      subDb := subDb + k.value;
      i := i + 1;
    }
    var last := EncodeKey(args[i]);
    if last.Err? {
      GetFromDbFails(store.entries, prefix, dbKey, args, i, valueType);
      return Err(last.failure);
    }
    GetFromDbLast(store.entries, prefix, dbKey, args, subDb, valueType);
    r := DecodeObject(store.Get(subDb + last.value), valueType);
  }
}
