# icon-service score containers, score elements and exceptions in Dafny

This project models three parts of icon-service, the ICON blockchain's SCORE
(smart contract) runtime:

- **Score containers** (`iconservice/iconscore/icon_container_db.py`).
  - `ContainerUtil` is the codec between typed Python values and the bytes of
    the key-value store: keys are `hex(n)` or the string itself followed by the
    delimiter `|`, values are UTF-8 text (`hex` for ints and bools) except
    bytes, which are stored unchanged, and
    `decode_object` reads bytes back as a requested type.
  - `put_to_db` and `get_from_db` fan a nested dict or sequence out into nested
    sub-namespaces and read a leaf back.
  - The three containers a SCORE keeps its state in: `DictDB`, a possibly
    nested mapping; `ListDB`, an append-only list; and `VarDB`, one value.
- **Score elements** (`iconservice/iconscore/typing/element.py`).
  - The legality rules on a function's score flag.
  - The normaliser of parameter type hints.
  - The two element kinds, `Function` and `EventLog`.
  - `ScoreElementContainer`, insertion-ordered, with its counters and its
    freeze flag.
  - The one-shot scan `create_score_elements` and the lookup
    `get_score_element`.
- **Exceptions** (`iconservice/base/exception.py`).
  - `ExceptionCode` and its text.
  - `IconServiceBaseException`, whose message defaults to the code's text.
  - The subclasses that pin a code.
  - `IconScoreException`, whose code is banded into 32..99.

The files:

| file | module | what it holds |
|---|---|---|
| `wrappers.dfy` | `Wrappers` | `Option` |
| `utf8.dfy` | `Utf8` | Python's `str.encode()` and `bytes.decode()`, as UTF-8 (RFC 3629), with the round trip |
| `hex_text.dfy` | `HexText` | Python's `hex(n)` and `int(s, 16)`, with the round trip |
| `py_values.dfy` | `PyValues` | the Python values that reach the codec |
| `store.dfy` | `Storage` | the key-value store as one map; a sub-database handle is a byte prefix |
| `container_util.dfy` | `ContainerUtil` | the codec, and the bulk write and read |
| `container_db.dfy` | `ContainerDb` | `DictDB`, `ListDB` and `VarDB`: classes over the store, each specified by functions on the store's map |
| `exceptions.dfy` | `Exceptions` | the exception values |
| `element.dfy` | `ScoreElements` | flags, type hints, elements, the container class, the scan |

Classes model what the source updates in place:

- `Storage.Store`;
- the three score containers;
- `ScoreElements.ScoreFunction`, whose score-flag attribute the decorators set;
- `ScoreElements.ScoreElementContainer`.

Methods model the loops:

- `get_from_db` and `__put_to_db_internal`;
- the key walks of `DictDB`;
- `normalize_signature`;
- `create_score_elements`.

The loop and container methods are proved against specification functions,
and the properties are proved about those functions; the other methods
(`ScoreFunction.SetScoreFlag` and `SetScoreFlagOn`,
`ScoreElementContainer.SetItem` and `Freeze`, `ListDB.Pop` and `Get`) state
their effect in their own `ensures`.

## Model

| member | source | states |
|---|---|---|
| Utf8.DecodeEncode | iconservice/iconscore/icon_container_db.py:58-63 | decoding the UTF-8 encoding of any text gives the text back |
| HexText.ParseHex | iconservice/iconscore/icon_container_db.py:58 | `int(hex(n), 16) == n` for every int, negative ones included |
| ContainerUtil.KeyText | iconservice/iconscore/icon_container_db.py:26-33 | only an int, a bool or a str has a key text, and any other key fails with "can't encode key"; an int's text reads back as the int under `int(s, 16)`, a bool's as 1 or 0, and a str's text is the str |
| ContainerUtil.EncodeKey | iconservice/iconscore/icon_container_db.py:14-33 | an int or bool key becomes the UTF-8 of `hex(n)` then `|`, a str key its UTF-8 then `|`; any other key fails with "can't encode key" |
| ContainerUtil.RemovePrefixFromKey | iconservice/iconscore/icon_container_db.py:75-76 | the key without its last byte: that byte appended gives the key back; an empty key stays empty |
| ContainerUtil.RemovePrefixFromIters | iconservice/iconscore/icon_container_db.py:71-72 | the same entries in order, the values unchanged, each key without its last byte (an empty key stays empty) |
| ContainerUtil.RemovePrefixRecoversKeyText | iconservice/iconscore/icon_container_db.py:75-76 | trimming an encoded key and decoding it gives the key's text (`hex(n)` or the string) |
| ContainerUtil.IteratedKeysRecoverText | iconservice/iconscore/icon_container_db.py:71-76 | iterating a namespace whose keys `encode_key` made gives each key's text back |
| ContainerUtil.EncodeKeyInjectiveOnInts | iconservice/iconscore/icon_container_db.py:26-28 | two int keys with the same encoding are equal |
| ContainerUtil.EncodeKeyInjectiveOnStrs | iconservice/iconscore/icon_container_db.py:29-30 | two str keys with the same encoding are equal |
| ContainerUtil.EncodeKeyCollidesAcrossTypes | iconservice/iconscore/icon_container_db.py:26-33 | across types the encoding collides: `1`, `True` and `"0x1"` share one key |
| ContainerUtil.PipeInStrKeyBreaksPrefixFreedom | iconservice/iconscore/icon_container_db.py:14-19 | a str key holding `|` gives an encoding that is a proper prefix of another key's encoding |
| ContainerUtil.PipeFreeKeyIsSegment | iconservice/iconscore/icon_container_db.py:14-19 | an int, a bool or a `|`-free str key encodes to bytes that hold the delimiter only at their end |
| ContainerUtil.EncodeKeyPrefixFree | iconservice/iconscore/icon_container_db.py:14-33 | among such keys, no encoding is a prefix of a different one |
| ContainerUtil.EncodeValue | iconservice/iconscore/icon_container_db.py:36-49 | succeeds exactly on int, bool, str, Address and bytes, and fails with "can't encode value" otherwise; bytes pass unchanged |
| ContainerUtil.EncodeValueAsWritten | iconservice/iconscore/icon_container_db.py:22-23 | as written, `encode_value` succeeds on every storable value except bytes |
| ContainerUtil.BytesValueRejectedAsWritten | iconservice/iconscore/icon_container_db.py:22-49 | as written a bytes value fails, although its intended encoding is itself and it decodes back as bytes |
| ContainerUtil.DecodeObject | iconservice/iconscore/icon_container_db.py:52-68 | nothing stored, or an unknown type, gives `None`; a decoded value has the requested type; only text types can fail, on malformed bytes |
| ContainerUtil.ValueRoundTrip | iconservice/iconscore/icon_container_db.py:22-68 | decoding an encoded value as its own type gives the value back, for every storable value |
| ContainerUtil.BoolEncoding | iconservice/iconscore/icon_container_db.py:43-44 | a bool is stored as the text "0x1" or "0x0" |
| ContainerUtil.Entries | iconservice/iconscore/icon_container_db.py:81-84 | a dict gives its items, a sequence its `enumerate` pairs, anything else nothing |
| ContainerUtil.EncodePath | iconservice/iconscore/icon_container_db.py:89-93 | the concatenated key encodings; any failure is "can't encode key" |
| ContainerUtil.EncodePathOk | iconservice/iconscore/icon_container_db.py:89-93 | a key path encodes exactly when every key on it does |
| ContainerUtil.GetFromDb | iconservice/iconscore/icon_container_db.py:87-96 | the value read has the requested type; a missing key reads `None`; no argument at all fails |
| ContainerUtil.PathKeysEncodable | iconservice/iconscore/icon_container_db.py:99-109 | in a container with well-formed keys, every path of keys encodes and ends at a storable leaf |
| ContainerUtil.PutToDb | iconservice/iconscore/icon_container_db.py:79-84 | a `db_key` that cannot be encoded fails with nothing written; a value that is neither a dict nor a sequence writes nothing; every failure is "can't encode key" or "can't encode value" |
| ContainerUtil.PutValue | iconservice/iconscore/icon_container_db.py:99-109 | a key that cannot be encoded fails with nothing written; a leaf under an encodable key fails exactly when it is not storable; every failure is "can't encode key" or "can't encode value" |
| ContainerUtil.PutItems | iconservice/iconscore/icon_container_db.py:99-109 | no entries write nothing; every failure is "can't encode key" or "can't encode value" |
| ContainerUtil.PutValueSucceeds | iconservice/iconscore/icon_container_db.py:99-109 | writing a well-keyed value never fails |
| ContainerUtil.PutItemsSucceeds | iconservice/iconscore/icon_container_db.py:99-109 | writing well-keyed entries never fails |
| ContainerUtil.PutValueFrame | iconservice/iconscore/icon_container_db.py:99-109 | writing one entry changes nothing outside its key's namespace |
| ContainerUtil.PutItemsFrame | iconservice/iconscore/icon_container_db.py:99-109 | writing the entries changes nothing outside their keys' namespaces |
| ContainerUtil.PutValueHit | iconservice/iconscore/icon_container_db.py:99-109 | after writing a value, each leaf's encoding is stored at the encoding of its key path |
| ContainerUtil.PutItemsHit | iconservice/iconscore/icon_container_db.py:99-109 | after writing the entries, each leaf's encoding is stored at its path, and later entries do not overwrite it |
| ContainerUtil.PutThenGet | iconservice/iconscore/icon_container_db.py:79-96 | `get_from_db` after `put_to_db`, along any path of the container, returns the leaf read as its own type |
| ContainerUtil.PutToDbStaysInNamespace | iconservice/iconscore/icon_container_db.py:79-84 | `put_to_db` changes nothing outside the namespace of `encode_key(db_key)` |
| ContainerUtil.PutToStore | iconservice/iconscore/icon_container_db.py:79-84 | the new store and the failure are those of the specification `PutToDb` |
| ContainerUtil.PutEntriesToStore | iconservice/iconscore/icon_container_db.py:99-109 | the loop and its recursion leave the store, and report the failure, as the specification `PutItems` says |
| ContainerUtil.GetFromStore | iconservice/iconscore/icon_container_db.py:87-96 | the loop that narrows the namespace returns what `GetFromDb` specifies |
| ContainerDb.KeySeqAsWritten | iconservice/iconscore/icon_container_db.py:141-144 | as written, a string key is iterated as its one-character strings |
| ContainerDb.KeySeq | iconservice/iconscore/icon_container_db.py:141-144 | a string key is taken as one key; other keys as written |
| ContainerDb.CheckKeys | iconservice/iconscore/icon_container_db.py:146-152 | passes exactly the keys that are all int, str or Address and match the depth, unchanged; "can't cast args" exactly when some key has another type; "depth over" when all keys are well typed but their count is not the depth |
| ContainerDb.CheckTupleKeysAsWritten | iconservice/iconscore/icon_container_db.py:139-152 | keys that pass are as many as the depth and each an int, str or Address; `None` is the empty tuple, which passes exactly at depth 0 |
| ContainerDb.CheckTupleKeys | iconservice/iconscore/icon_container_db.py:139-152 | the same for the corrected check |
| ContainerDb.StrKeySplitAsWritten | iconservice/iconscore/icon_container_db.py:139-152 | as written, a depth-1 DictDB refuses every str key that is not one character long ("depth over"); the corrected check accepts it |
| ContainerDb.CheckTupleKeysAgrees | iconservice/iconscore/icon_container_db.py:139-152 | on keys that are not strings, the corrected check is the check as written |
| ContainerDb.SingleKeyDepth | iconservice/iconscore/icon_container_db.py:139-152 | a single key passes exactly at depth 1 |
| ContainerDb.DictLocation | iconservice/iconscore/icon_container_db.py:119-128 | a key tuple with a location passes the key check, and its location lies in the DictDB's namespace |
| ContainerDb.DictSet | iconservice/iconscore/icon_container_db.py:119-128 | a failed key check is raised as it is; a DictDB of depth 0 or less accepts no write; a write that succeeds has a storable value and keeps every key already stored |
| ContainerDb.DictGet | iconservice/iconscore/icon_container_db.py:130-137 | a failed key check is raised as it is; a DictDB of depth 0 or less accepts no read; a value read has the DictDB's value type |
| ContainerDb.DictSetWritesLocation | iconservice/iconscore/icon_container_db.py:119-128 | `d[keys] = v` succeeds exactly when the keys have a location and `v` encodes, and then it writes that encoding there and nothing else |
| ContainerDb.DictGetReadsLocation | iconservice/iconscore/icon_container_db.py:130-137 | `d[keys]` fails exactly where the location does, and otherwise decodes what is stored there |
| ContainerDb.DictSetThenGet | iconservice/iconscore/icon_container_db.py:119-137 | after `d[keys] = v`, `d[keys]` returns `v` when the DictDB's value type is `v`'s own |
| ContainerDb.DictSetOtherKeys | iconservice/iconscore/icon_container_db.py:119-137 | writing one key tuple leaves every other location's read unchanged |
| ContainerDb.EncodePathSegmentsInjective | iconservice/iconscore/icon_container_db.py:122-128 | key paths of `|`-free keys with equal encodings agree key by key |
| ContainerDb.DictDbsIsolated | iconservice/iconscore/icon_container_db.py:114-117 | DictDBs under different `|`-free variable names never share a location |
| ContainerDb.StoredSize | iconservice/iconscore/icon_container_db.py:175-180 | no stored size reads 0; a malformed one fails |
| ContainerDb.StoredSizeReads | iconservice/iconscore/icon_container_db.py:175-180 | a size stored as `hex(n)` reads back as `n` |
| ContainerDb.ListPut | iconservice/iconscore/icon_container_db.py:163-167 | succeeds exactly on storable values, and then stores the encoded value under the key of the current size and leaves every other key as it was |
| ContainerDb.ElementKeyIsNotSizeKey | iconservice/iconscore/icon_container_db.py:156-166 | an element key never equals the size key `size|` |
| ContainerDb.ReopenedListOverwrites | iconservice/iconscore/icon_container_db.py:158-183 | `put` never writes the size back, so a ListDB opened again starts from the old size, and its first `put` overwrites the earlier list's first element |
| ContainerDb.ListPutsDistinct | iconservice/iconscore/icon_container_db.py:163-167 | successive puts of one ListDB go to different keys |
| ContainerDb.VarSet | iconservice/iconscore/icon_container_db.py:225-227 | succeeds exactly on storable values, and then stores the encoded value under the variable's key and leaves every other key as it was |
| ContainerDb.VarSetThenGet | iconservice/iconscore/icon_container_db.py:225-230 | reading back what `set` stored, as its own type, gives the value |
| ContainerDb.VarDbBesideDictDb | iconservice/iconscore/icon_container_db.py:220-223 | a VarDB's key is never a location of the DictDB of the same name |
| ContainerDb.DictDB.constructor | iconservice/iconscore/icon_container_db.py:114-117 | the namespace is the handle's prefix followed by `encode_key(var_key)` |
| ContainerDb.DictDB.SetItem | iconservice/iconscore/icon_container_db.py:119-128 | the store becomes the specification `DictSet`'s result; a failure leaves it unchanged |
| ContainerDb.DictDB.GetItem | iconservice/iconscore/icon_container_db.py:130-137 | returns the specification `DictGet`'s result |
| ContainerDb.ListDB.constructor | iconservice/iconscore/icon_container_db.py:158-161 | a list over the given namespace with the given size |
| ContainerDb.ListDB.Open | iconservice/iconscore/icon_container_db.py:158-161 | a fresh list whose size is the stored size, or the failure of reading that size |
| ContainerDb.ListDB.Put | iconservice/iconscore/icon_container_db.py:163-167 | the store becomes `ListPut`'s result and the size goes up by one; a failure changes nothing |
| ContainerDb.ListDB.Pop | iconservice/iconscore/icon_container_db.py:169-170 | always fails |
| ContainerDb.ListDB.Get | iconservice/iconscore/icon_container_db.py:172-173 | always fails, whatever the keys |
| ContainerDb.VarDB.constructor | iconservice/iconscore/icon_container_db.py:220-223 | the key is the handle's prefix followed by `encode_key(var_key)` |
| ContainerDb.VarDB.Set | iconservice/iconscore/icon_container_db.py:225-227 | the store becomes `VarSet`'s result; a failure changes nothing |
| ContainerDb.VarDB.Get | iconservice/iconscore/icon_container_db.py:229-230 | decodes what is stored under the key; nothing stored reads `None` |
| Exceptions.FromValue | iconservice/base/exception.py:21-42 | `ExceptionCode(n)` exists exactly for 0..15, 32 and 99 |
| Exceptions.ValueDeterminesMember | iconservice/base/exception.py:21-42 | every member's value maps back to that member (`@unique`) |
| Exceptions.ValuesDistinct | iconservice/base/exception.py:21-42 | distinct members have distinct values |
| Exceptions.FromValueIsInverse | iconservice/base/exception.py:21-42 | the member found for `n` has value `n` |
| Exceptions.UndescribeDescribe | iconservice/base/exception.py:44-45 | a code's text loses nothing: upper-casing it back gives the member name |
| Exceptions.DescribeInjective | iconservice/base/exception.py:44-45 | distinct member names have distinct texts |
| Exceptions.TextStartsWithCapital | iconservice/base/exception.py:44-45 | a member's text is as long as its name and starts with the name's capital |
| Exceptions.Decimal | iconservice/base/exception.py:75-76 | `str(n)` of an int: a `-` first exactly when `n` is negative, decimal digits otherwise |
| Exceptions.CodeText | iconservice/base/exception.py:61-76 | `str(code)` is never empty, and starts with a capital letter exactly when the code is a member rather than a plain int |
| Exceptions.ScoreErrorText | iconservice/base/exception.py:44-45 | `str(SCORE_ERROR)` is "Score error" |
| Exceptions.EndText | iconservice/base/exception.py:44-45 | `str(END)` is "End" |
| Exceptions.NewServiceException | iconservice/base/exception.py:61-65 | keeps the kind and the code; a missing message becomes `str(code)` |
| Exceptions.NewFixed | iconservice/base/exception.py:79-171 | a subclass pins its code, and a missing message becomes that code's text |
| Exceptions.FixedCodeValues | iconservice/base/exception.py:84-171 | the codes the subclasses pin: 3 for method-not-found, 5 for the format family, 6 for invalid params, 9 for both database and access denied; all lie in 1..31 |
| Exceptions.ScoreCode | iconservice/base/exception.py:179-183 | the code lies in 32..99; it is 32 + index in the band, and is clamped to the members SCORE_ERROR and END outside it |
| Exceptions.ScoreCodeMonotone | iconservice/base/exception.py:179-183 | banding keeps the order of indices |
| Exceptions.NewIconScoreException | iconservice/base/exception.py:174-184 | a non-int index raises InvalidParams; otherwise the kind is IconScore, the code is the banded index, and the message is kept |
| Exceptions.IconScoreMessageInBand | iconservice/base/exception.py:174-184 | with no message and an index in the band, the message is the decimal code |
| Exceptions.IconScoreMessageIndexZero | iconservice/base/exception.py:174-184 | index 0 gives the message "32", not "Score error" |
| Exceptions.IconScoreMessageClamped | iconservice/base/exception.py:174-184 | an index below the band gives "Score error", and one above it "End" |
| Exceptions.StrForm | iconservice/base/exception.py:75-76 | `str(e)` is the message followed by " (" + the code's text + ")" |
| Exceptions.StrFormWithoutMessage | iconservice/base/exception.py:61-76 | with no message, the code's text appears twice |
| ScoreElements.VerifyScoreFlag | iconservice/iconscore/typing/element.py:104-123 | accepts exactly the flags where readonly implies external and not payable, and an eventlog or interface bit stands alone; readonly with payable is reported first |
| ScoreElements.FlagExamples | iconservice/iconscore/typing/element.py:104-123 | the usual decorator combinations pass; readonly alone, readonly with payable, and combined eventlog or interface bits are refused |
| ScoreElements.ViolationException | iconservice/iconscore/typing/element.py:109-123 | a violation raises IllegalFormatException, code 5 |
| ScoreElements.NormalizeTypeHint | iconservice/iconscore/typing/element.py:82-101 | a hint that normalises comes back unchanged |
| ScoreElements.NormalizeParameter | iconservice/iconscore/typing/element.py:67-79 | the name is kept; a missing annotation becomes `str`; a parameter whose annotation normalises comes back unchanged |
| ScoreElements.NormalizeIsIdentityOrError | iconservice/iconscore/typing/element.py:82-101 | the normaliser succeeds exactly on supported hints, and then returns the hint unchanged |
| ScoreElements.NormalizeIdempotent | iconservice/iconscore/typing/element.py:82-101 | normalising twice is normalising once |
| ScoreElements.NormalizeParameterSpec | iconservice/iconscore/typing/element.py:67-79 | a parameter normalises exactly when its annotation is missing or supported; the name is kept, and only a missing annotation changes, to `str` |
| ScoreElements.NormalizeParams | iconservice/iconscore/typing/element.py:49-64 | a normalised signature has as many parameters as the original |
| ScoreElements.NormalizeParamsAll | iconservice/iconscore/typing/element.py:49-64 | a signature normalises exactly when every parameter does, parameter by parameter |
| ScoreElements.NormalizeSignature | iconservice/iconscore/typing/element.py:49-64 | the loop returns what `NormalizeParams` specifies |
| ScoreElements.NormalizeParamsPrefixFails | iconservice/iconscore/typing/element.py:54-56 | one unsupported parameter fails every longer signature |
| ScoreElements.ScoreFunction.constructor | iconservice/iconscore/typing/element.py:269-270 | an undecorated function's flag is `NONE` |
| ScoreElements.ScoreFunction.SetScoreFlag | iconservice/iconscore/typing/element.py:273-275 | the flag is replaced and returned |
| ScoreElements.ScoreFunction.SetScoreFlagOn | iconservice/iconscore/typing/element.py:278-289 | the new flag is the old one together with the new bits; afterwards every bit, old and new, is on |
| ScoreElements.ScoreFlagQueries | iconservice/iconscore/typing/element.py:284-289 | `is_all_score_flag_on` holds exactly when every bit of the mask is on, `is_any_score_flag_on` exactly when some bit is; all bits of a non-empty mask means some bit; the empty mask is always all on and never any on |
| ScoreElements.ElementAccessorsReadOrigin | iconservice/iconscore/typing/element.py:135-181 | the accessors read the origin function when asked: two elements over one function agree on all of them; external, payable and readonly are the flag's bits; fallback is the name "fallback" with the payable bit; the indexed-argument count is the origin's |
| ScoreElements.VerifiedElementAccessors | iconservice/iconscore/typing/element.py:155-169 | under a verified flag, a readonly element is external and not payable, a fallback is never readonly, and an event log is none of them |
| ScoreElements.CreateScoreElement | iconservice/iconscore/typing/element.py:260-266 | an element exists exactly when the signature normalises; it is an EventLog exactly when the EVENTLOG bit is on, and it keeps the function as its origin |
| ScoreElements.RemoveName | iconservice/iconscore/typing/element.py:227 | the names without `k`, in their order: unchanged when `k` is absent, and the list with `k`'s one position cut out when the names are distinct |
| ScoreElements.CountsAddUp | iconservice/iconscore/typing/element.py:209-212 | functions and event logs together are all the elements |
| ScoreElements.DeleteCounters | iconservice/iconscore/typing/element.py:223-232 | one element fewer is counted in all, and the counter of the other kind is unchanged |
| ScoreElements.DeleteCountersAsWritten | iconservice/iconscore/typing/element.py:229-232 | as written, the externals counter drops by one and the eventlogs counter stays, whatever the deleted element's kind |
| ScoreElements.DeleteUndoesInsert | iconservice/iconscore/typing/element.py:205-232 | deleting what was just inserted restores both counters |
| ScoreElements.DeleteEventLogAsWritten | iconservice/iconscore/typing/element.py:229-232 | as written, inserting then deleting an event log leaves one externals fewer and one eventlogs more |
| ScoreElements.InsertKeepsValid | iconservice/iconscore/typing/element.py:205-214 | inserting under a fresh name keeps the names distinct, equal to the keys, and counted by kind |
| ScoreElements.DeleteKeepsValid | iconservice/iconscore/typing/element.py:223-232 | deleting a present name, and lowering the counter of its kind, keeps the invariant |
| ScoreElements.ScoreElementContainer.constructor | iconservice/iconscore/typing/element.py:188-192 | empty, with zero counters, writable, and valid |
| ScoreElements.ScoreElementContainer.Get | iconservice/iconscore/typing/element.py:202-203 | the element stored under a present name, and nothing for a missing one |
| ScoreElements.ScoreElementContainer.SetItem | iconservice/iconscore/typing/element.py:205-214 | refused once frozen; otherwise stores in place or appends the name, and raises the counter of the element's kind; a fresh name keeps the invariant |
| ScoreElements.ScoreElementContainer.DeleteItem | iconservice/iconscore/typing/element.py:223-236 | refused once frozen; a missing name is a KeyError; otherwise the name leaves the order and the map, its kind's counter drops, and the invariant holds |
| ScoreElements.ScoreElementContainer.Freeze | iconservice/iconscore/typing/element.py:238-239 | read-only from then on; the contents and counters are unchanged |
| ScoreElements.ScoreElementContainer.Len | iconservice/iconscore/typing/element.py:220-221 | zero exactly when the container holds no element |
| ScoreElements.LenCountsElements | iconservice/iconscore/typing/element.py:220-221 | in a valid container, `len` is the number of names and the sum of the two counters |
| ScoreElements.ElementsCardinality | iconservice/iconscore/typing/element.py:220-221 | distinct names that are exactly the keys are as many as the keys |
| ScoreElements.Scan | iconservice/iconscore/typing/element.py:242-257 | the collected indices are positions of the scanned functions |
| ScoreElements.ScanRaisedStays | iconservice/iconscore/typing/element.py:252-254 | once a function raises, the functions after it change nothing |
| ScoreElements.ScanCollectsCandidates | iconservice/iconscore/typing/element.py:242-257 | the scan succeeds exactly when every function whose name does not start with `__` and that has a FUNC or EVENTLOG bit is acceptable, and then collects exactly those, in order |
| ScoreElements.ScanRaisesFirstFailure | iconservice/iconscore/typing/element.py:245-254 | a failing scan reports the first unacceptable candidate: its flag violation, otherwise its unsupported type hint |
| ScoreElements.CreateScoreElements | iconservice/iconscore/typing/element.py:242-257 | either the first failure, or a fresh, frozen, valid container holding each collected function's element under its name, in order |
| ScoreElements.CollectElements | iconservice/iconscore/typing/element.py:243-255 | the loop builds a writable, valid container whose contents match the scan |
| ScoreElements.GetScoreElement | iconservice/iconscore/typing/element.py:292-298 | the element of that name, or a MethodNotFoundException, code 3, with message "Method not found: Type.name" |

## Left out

- Python's `import` machinery:
  - `icon_container_db.py` imports `IconScoreBaseException`, which `exception.py` does not define, so as written the module cannot be imported. The model follows the evident intent: every raise in that file is one error family, `ContainerUtil.Failure`, told apart by its reason.
  - `element.py` imports `InternalServiceErrorException`, which `exception.py` does not define. Its raise when writing a frozen container is `ScoreElements.NotWritable`.
- Calls without `self`: `DictDB.__setitem__` and `__getitem__` call `DictDB.__check_tuple_keys(keys)`, and `ListDB.__init__` calls `ListDB.__get_size()`, without an instance. As written these raise a `TypeError`; the model makes the evidently intended calls on `self`.
- Values and keys:
  - An `Address` is opaque. Only its canonical text is modelled, with `Address.from_string` assumed to invert `str` and never to fail, so reading an Address fails only on malformed UTF-8.
  - `collections.Iterable` (removed in Python 3.10) is taken as `collections.abc.Iterable`.
  - Only `None`, str, bytes, lists, tuples, sets and dicts are modelled as iterables; generators and other iterables are not.
  - Sets enter as sequences in iteration order, which the model takes as given.
- ContainerUtil.EncodeKey, ContainerUtil.EncodeValue: a Python str holding a lone surrogate, on which `.encode()` raises `UnicodeEncodeError`, cannot be represented, because a Dafny `char` is a Unicode scalar value. So neither fails on a str.
- ContainerUtil.DecodeObject: reading an int or a bool accepts only the text `hex` writes (an optional sign, an optional `0x`, ASCII hexadecimal digits). It fails on stored text that Python's `int(s, 16)` also accepts: surrounding whitespace (`" 0x1"`), `_` between digits (`"1_0"`) and non-ASCII digits. The same holds for `StoredSize` and `ListDB.Open`. The codec's own writes are never of that form (`HexText.ParseHex`).
- The database: `IconScoreDatabase` is not part of this model. The store is one map from bytes to bytes, and `get_sub_db(k)` on the handle with prefix `p` is taken as the handle with prefix `p + k`.
- `ListDB`:
  - `ListDB.__set_size` is empty and nothing calls it, so the list size is never persisted. The model follows the code; `ReopenedListOverwrites` states the consequence.
  - `ListDB.constructor` takes the size, and `ListDB.Open` does the `__init__` work of reading it.
  - `raise NotImplemented()` (which itself raises a `TypeError`) is modelled as the failure `NotImplementedOp`.
  - The commented-out `ListDB` methods are not behaviour and are not modelled.
- Score flags and elements:
  - The bit values of `ScoreFlag` and the name of the flag attribute live in a constants module that is not part of this model. A flag is the set of its bits, and `ScoreFlag.FUNC` is a parameter (`funcMask`) of the scan.
  - `STR_FALLBACK` is taken to be "fallback".
- ScoreElements.ViolationException: the message of "Invalid score flag" omits the rendering of the flag, whose format depends on the enum's `__format__`.
- Type hints:
  - Type hints written as strings (`name_to_type`) are left out.
  - `is_base_type` and `is_struct` are reduced to two hint kinds.
  - `get_origin` and `get_args` are the fields of a generic hint.
- ScoreElements.NormalizeSignature: the test `params[k] != new_params` compares a parameter with the whole list, so it is always true and `normalized` is always set. Replacing the parameters with equal ones changes nothing, so the model does not carry the flag.
- The scan:
  - `getmembers` (which sorts by name) and `isfunction` are the caller's: the scan takes the class's functions as a sequence with distinct names.
  - `get_score_element` reads the container from the SCORE's class attribute; the model takes the container and the type name as arguments.
- ScoreElements.ScoreElementContainer.SetItem:
  - The `else` raise for an element that is neither a `Function` nor an `EventLog` cannot happen with the two element kinds.
  - Overwriting an existing name raises the counter again, as the code does, so the invariant is only kept for fresh names.
- ScoreElements.ScoreElementContainer.Get: a missing name is `None` rather than a `KeyError`.
- Exceptions:
  - `FatalException` and `InvalidBaseTransactionException` carry no behaviour and are not modelled.
  - The subclasses differ only in their pinned code, so they are one `Kind` each of a single exception value.
  - The f-string `{self.code}` is taken to render the code's `__str__`.

## Findings

| source | as written | input that shows it | evidently intended | confidence | as-written member | corrected member |
|---|---|---|---|---|---|---|
| iconservice/iconscore/icon_container_db.py:22-23 | `encode_value` calls `.encode()` on what `__encode_value` returns, which for a bytes value is the bytes themselves, and bytes have no `.encode` | `encode_value(b"\x01")` raises `AttributeError` | bytes are stored as they are and decode back as bytes | high, not executed | ContainerUtil.BytesValueRejectedAsWritten | ContainerUtil.ValueRoundTrip |
| iconservice/iconscore/icon_container_db.py:143 | a str key is Iterable, so `__check_tuple_keys` iterates it into characters | `d["ab"]` on a depth-1 DictDB raises "depth over" | a str key is one key | high, not executed | ContainerDb.StrKeySplitAsWritten | ContainerDb.SingleKeyDepth |
| iconservice/iconscore/typing/element.py:229 | `__delitem__` reads the score flag of the element wrapper, not of its origin function, so it finds `NONE` and always decrements the externals counter | insert an EventLog, then delete it: externals drops by one and eventlogs stays one too high | decrement the counter of the deleted element's kind | medium (the attribute name is not shown), not executed | ScoreElements.DeleteEventLogAsWritten | ScoreElements.DeleteUndoesInsert |
