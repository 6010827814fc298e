/**
 * The reflection side of a SCORE (typing/element.py): the legality rules on
 * a function's score flag, the normaliser of parameter type hints, the two
 * element kinds (`Function`, `EventLog`), the insertion-ordered
 * `ScoreElementContainer` with its counters and freeze flag, the one-shot
 * scan `create_score_elements`, and the lookup `get_score_element`.
 *
 * A score flag is a bit mask whose bit values live in a constants module
 * that is not part of this model; here it is the set of its bits.  A
 * SCORE class is the sequence of its functions in the order `getmembers`
 * hands them out, which the caller supplies.
 */
module ScoreElements {
  import opened Wrappers
  import Exceptions

  // ------------------------------------------------------ score flags

  datatype FlagBit = Readonly | External | Payable | EventLogBit | Interface | OtherBit(n: nat)

  /** A `ScoreFlag` value: the set of its bits; `NONE` is the empty set. */
  type Flag = set<FlagBit>

  const NONE: Flag := {}

  /** The name `Function.is_fallback` compares with. */
  const STR_FALLBACK := "fallback"

  /** The four ways `verify_score_flag` rejects a flag. */
  datatype FlagViolation = PayableReadonly | ReadonlyWithoutExternal | EventLogCombined | InterfaceCombined

  /** `verify_score_flag`: the first rule the flag breaks, in the order the source checks them. */
  function VerifyScoreFlag(flag: Flag): (r: Option<FlagViolation>)
    ensures r.None? <==> && (Readonly in flag ==> External in flag && Payable !in flag)
                         && (EventLogBit in flag ==> flag == {EventLogBit})
                         && (Interface in flag ==> flag == {Interface})
    ensures Readonly in flag && Payable in flag ==> r == Some(PayableReadonly)
    ensures r == Some(EventLogCombined) ==> EventLogBit in flag && flag != {EventLogBit}
    ensures r == Some(InterfaceCombined) ==> Interface in flag && flag != {Interface}
  {
    if Readonly in flag && Payable in flag then Some(PayableReadonly)
    else if Readonly in flag && External !in flag then Some(ReadonlyWithoutExternal)
    else if EventLogBit in flag && flag != {EventLogBit} then Some(EventLogCombined)
    else if Interface in flag && flag != {Interface} then Some(InterfaceCombined)
    else None
  }

  /** The combinations a SCORE uses are accepted; the illegal ones are not. */
  lemma FlagExamples()
    ensures VerifyScoreFlag({External, Readonly}).None?
    ensures VerifyScoreFlag({External, Payable}).None?
    ensures VerifyScoreFlag({External}).None?
    ensures VerifyScoreFlag({EventLogBit}).None?
    ensures VerifyScoreFlag({Interface}).None?
    ensures VerifyScoreFlag(NONE).None?
    ensures VerifyScoreFlag({Readonly}) == Some(ReadonlyWithoutExternal)
    ensures VerifyScoreFlag({External, Readonly, Payable}) == Some(PayableReadonly)
    ensures VerifyScoreFlag({EventLogBit, External}) == Some(EventLogCombined)
    ensures VerifyScoreFlag({Interface, External}) == Some(InterfaceCombined)
  {
    assert {EventLogBit, External} != {EventLogBit} by {
      assert External in {EventLogBit, External};
    }
    assert {Interface, External} != {Interface} by {
      assert External in {Interface, External};
    }
  }

  /** The exception a violation raises: `IllegalFormatException`, code 5. */
  function ViolationException(v: FlagViolation): (e: Exceptions.ServiceException)
    ensures e.kind == Exceptions.IllegalFormatKind
    ensures e.code == Exceptions.Code.Member(Exceptions.IllegalFormat)
    ensures Exceptions.Value(e.code.member) == 5
  {
    Exceptions.NewFixed(Exceptions.IllegalFormatKind,
                        Some(if v == PayableReadonly then "Payable method cannot be readonly" else "Invalid score flag"))
  }

  // ------------------------------------------------------ type hints

  datatype BaseKind = IntHint | StrHint | BytesHint | BoolHint | AddressHint

  /** `get_origin` of a generic hint. */
  datatype Origin = ListOrigin | DictOrigin | OtherOrigin(name: string)

  /** A parameter annotation: a base type, a struct (TypedDict), or a generic with its arguments. */
  datatype TypeHint =
    | BaseHint(kind: BaseKind)
    | StructHint(name: string)
    | GenericHint(origin: Origin, args: seq<TypeHint>)

  /**
   * `normalize_type_hint`: base and struct types as they are, `List[T]` and
   * `Dict[str, T]` with `T` normalised; anything else is unsupported.
   */
  function NormalizeTypeHint(h: TypeHint): (r: Option<TypeHint>)
    ensures r.Some? ==> r.value == h
  {
    match h
    case BaseHint(_) => Some(h)
    case StructHint(_) => Some(h)
    case GenericHint(origin, args) =>
      if origin == ListOrigin && |args| == 1 then
        assert args[0] in args;
        var a := NormalizeTypeHint(args[0]);
        assert [args[0]] == args;
        if a.None? then None else Some(GenericHint(ListOrigin, [a.value]))
      else if origin == DictOrigin && |args| == 2 && args[0] == BaseHint(StrHint) then
        assert args[1] in args;
        var v := NormalizeTypeHint(args[1]);
        assert [BaseHint(StrHint), args[1]] == args;
        if v.None? then None else Some(GenericHint(DictOrigin, [BaseHint(StrHint), v.value]))
      else None
  }

  /** The hints the normaliser supports, at every level. */
  predicate IsSupported(h: TypeHint)
  {
    match h
    case BaseHint(_) => true
    case StructHint(_) => true
    case GenericHint(origin, args) =>
      || (origin == ListOrigin && |args| == 1 && (assert args[0] in args; IsSupported(args[0])))
      || (origin == DictOrigin && |args| == 2 && args[0] == BaseHint(StrHint) && (assert args[1] in args; IsSupported(args[1])))
  }

  /**
   * The normaliser either returns its argument unchanged or raises: it
   * succeeds exactly on the supported hints, and then it is the identity.
   */
  lemma {:induction false} NormalizeIsIdentityOrError(h: TypeHint)
    ensures NormalizeTypeHint(h).Some? <==> IsSupported(h)
    ensures NormalizeTypeHint(h).Some? ==> NormalizeTypeHint(h).value == h
  {
    match h
    case BaseHint(_) =>
    case StructHint(_) =>
    case GenericHint(origin, args) =>
      if origin == ListOrigin && |args| == 1 {
        assert args[0] in args;
        NormalizeIsIdentityOrError(args[0]);
        assert [args[0]] == args;
      } else if origin == DictOrigin && |args| == 2 && args[0] == BaseHint(StrHint) {
        assert args[1] in args;
        NormalizeIsIdentityOrError(args[1]);
        assert [BaseHint(StrHint), args[1]] == args;
      }
  }

  /** Normalising twice is normalising once. */
  lemma NormalizeIdempotent(h: TypeHint)
    requires NormalizeTypeHint(h).Some?
    ensures NormalizeTypeHint(NormalizeTypeHint(h).value) == NormalizeTypeHint(h)
  {
    NormalizeIsIdentityOrError(h);
  }

  /** A parameter and its annotation; `None` is `Parameter.empty`. */
  datatype Param = Param(name: string, annotation: Option<TypeHint>)

  /** `normalize_parameter`: a missing annotation becomes `str`; a present one is normalised. */
  function NormalizeParameter(p: Param): (r: Option<Param>)
    ensures r.Some? ==> r.value.name == p.name
    ensures p.annotation.None? ==> r == Some(Param(p.name, Some(BaseHint(StrHint))))
    ensures p.annotation.Some? && r.Some? ==> r.value == p
  {
    var hint := if p.annotation.None? then Some(BaseHint(StrHint)) else NormalizeTypeHint(p.annotation.value);
    if hint.None? then None
    else if Some(hint.value) == p.annotation then Some(p)
    else Some(p.(annotation := Some(hint.value)))
  }

  /**
   * A parameter normalises exactly when it has no annotation or a supported
   * one; the name is kept, and only a missing annotation changes (to `str`).
   */
  lemma NormalizeParameterSpec(p: Param)
    ensures NormalizeParameter(p).Some? <==> p.annotation.None? || IsSupported(p.annotation.value)
    ensures NormalizeParameter(p).Some? ==>
              && NormalizeParameter(p).value.name == p.name
              && NormalizeParameter(p).value.annotation
                 == Some(if p.annotation.None? then BaseHint(StrHint) else p.annotation.value)
  {
    if p.annotation.Some? {
      NormalizeIsIdentityOrError(p.annotation.value);
    }
  }

  /** The parameters of a signature normalised one by one; one unsupported hint fails them all. */
  function NormalizeParams(ps: seq<Param>): (r: Option<seq<Param>>)
    ensures r.Some? ==> |r.value| == |ps|
  {
    if ps == [] then Some([])
    else
      var init := NormalizeParams(ps[..|ps| - 1]);
      var last := NormalizeParameter(ps[|ps| - 1]);
      if init.None? || last.None? then None else Some(init.value + [last.value])
  }

  /** A signature normalises exactly when every parameter does. */
  lemma {:induction false} NormalizeParamsAll(ps: seq<Param>)
    ensures NormalizeParams(ps).Some? <==> forall i :: 0 <= i < |ps| ==> NormalizeParameter(ps[i]).Some?
    ensures NormalizeParams(ps).Some? ==>
              forall i :: 0 <= i < |ps| ==> NormalizeParams(ps).value[i] == NormalizeParameter(ps[i]).value
  {
    if ps != [] {
      var n := |ps| - 1;
      NormalizeParamsAll(ps[..n]);
      assert forall i :: 0 <= i < n ==> ps[..n][i] == ps[i];
    }
  }

  /** `normalize_signature`: the loop over the parameters. */
  method NormalizeSignature(ps: seq<Param>) returns (r: Option<seq<Param>>)
    ensures r == NormalizeParams(ps)
  {
    var acc: seq<Param> := [];
    var i := 0;
    while i < |ps|
      invariant 0 <= i <= |ps|
      invariant NormalizeParams(ps[..i]) == Some(acc)
    {
      var p := NormalizeParameter(ps[i]);
      if p.None? {
        NormalizeParamsPrefixFails(ps, i + 1);
        assert ps[..i + 1][..i] == ps[..i];
        return None;
      }
      assert ps[..i + 1][..i] == ps[..i];
      acc := acc + [p.value];
      i := i + 1;
    }
    assert ps[..i] == ps;
    r := Some(acc);
  }

  /** A failure among the first `k` parameters fails the whole signature. */
  lemma NormalizeParamsPrefixFails(ps: seq<Param>, k: nat)
    requires 0 < k <= |ps| && NormalizeParameter(ps[k - 1]).None?
    ensures NormalizeParams(ps[..k]).None? && NormalizeParams(ps).None?
  {
    NormalizeParamsAll(ps[..k]);
    NormalizeParamsAll(ps);
    assert ps[..k][k - 1] == ps[k - 1];
  }

  // ------------------------------------------------------ functions and elements

  /** A function of a SCORE class; the decorators write its flag attribute. */
  class ScoreFunction {
    const name: string
    const params: seq<Param>
    /** The `CONST_INDEXED_ARGS_COUNT` attribute, 0 when absent. */
    const indexedArgsCount: int
    var flag: Flag

    /** A function no decorator has touched yet: `get_score_flag` gives `NONE`. */
    constructor (name: string, params: seq<Param>, indexedArgsCount: int)
      ensures this.name == name && this.params == params && this.indexedArgsCount == indexedArgsCount
      ensures flag == NONE
    {
      this.name := name;
      this.params := params;
      this.indexedArgsCount := indexedArgsCount;
      this.flag := NONE;
    }

    /** `set_score_flag`: replace the flag. */
    method SetScoreFlag(f: Flag) returns (r: Flag)
      modifies this
      ensures flag == f && r == f
    {
      flag := f;
      r := f;
    }

    /** `set_score_flag_on`: add bits to the flag; the bits already there stay. */
    method SetScoreFlagOn(f: Flag) returns (r: Flag)
      modifies this
      ensures flag == f + old(flag) && r == flag
      ensures IsAllScoreFlagOn(this, f) && IsAllScoreFlagOn(this, old(flag))
      ensures f != NONE ==> IsAnyScoreFlagOn(this, f)
    {
      r := SetScoreFlag(f + flag);
    }
  }

  /** `is_all_score_flag_on`: every bit of `mask` is set. */
  predicate IsAllScoreFlagOn(f: ScoreFunction, mask: Flag)
    reads f
  {
    mask <= f.flag
  }

  /** The two queries: every bit, some bit; every bit of a non-empty mask is some bit. */
  lemma ScoreFlagQueries(f: ScoreFunction, mask: Flag)
    ensures IsAllScoreFlagOn(f, mask) <==> forall b :: b in mask ==> b in f.flag
    ensures IsAnyScoreFlagOn(f, mask) <==> exists b :: b in mask && b in f.flag
    ensures IsAllScoreFlagOn(f, mask) && mask != NONE ==> IsAnyScoreFlagOn(f, mask)
    ensures IsAllScoreFlagOn(f, NONE) && !IsAnyScoreFlagOn(f, NONE)
  {
    if IsAllScoreFlagOn(f, mask) && mask != NONE {
      var b :| b in mask;
      assert b in f.flag * mask;
    }
    if IsAnyScoreFlagOn(f, mask) {
      var b :| b in f.flag * mask;
      assert b in mask && b in f.flag;
    }
    if exists b :: b in mask && b in f.flag {
      var b :| b in mask && b in f.flag;
      assert b in f.flag * mask;
    }
  }

  /** `is_any_score_flag_on`: some bit of `mask` is set. */
  predicate IsAnyScoreFlagOn(f: ScoreFunction, mask: Flag)
    reads f
  {
    f.flag * mask != NONE
  }

  /** A `Function` or an `EventLog`: the origin function and its normalised signature. */
  datatype ScoreElement =
    | FunctionElement(origin: ScoreFunction, signature: seq<Param>)
    | EventLogElement(origin: ScoreFunction, signature: seq<Param>)

  function ElementName(e: ScoreElement): string
  {
    e.origin.name
  }

  /** The element's `flag`: read from its origin, at the time of asking. */
  function ElementFlag(e: ScoreElement): Flag
    reads e.origin
  {
    e.origin.flag
  }

  predicate IsExternal(e: ScoreElement)
    reads e.origin
  {
    External in ElementFlag(e)
  }

  predicate IsPayable(e: ScoreElement)
    reads e.origin
  {
    Payable in ElementFlag(e)
  }

  predicate IsReadonly(e: ScoreElement)
    reads e.origin
  {
    Readonly in ElementFlag(e)
  }

  predicate IsFallback(e: ScoreElement)
    reads e.origin
  {
    ElementName(e) == STR_FALLBACK && IsPayable(e)
  }

  function IndexedArgsCount(e: ScoreElement): int
    requires e.EventLogElement?
  {
    e.origin.indexedArgsCount
  }

  /**
   * The accessors read the origin function's attributes when asked, so two
   * elements over one function (one made before a decorator changed its flag,
   * one after) always agree, and each accessor is the flag bit it names.
   */
  lemma ElementAccessorsReadOrigin(e1: ScoreElement, e2: ScoreElement)
    requires e1.origin == e2.origin
    ensures ElementFlag(e1) == ElementFlag(e2) == e1.origin.flag
    ensures IsExternal(e1) == IsExternal(e2) && (IsExternal(e1) <==> External in e1.origin.flag)
    ensures IsPayable(e1) == IsPayable(e2) && (IsPayable(e1) <==> Payable in e1.origin.flag)
    ensures IsReadonly(e1) == IsReadonly(e2) && (IsReadonly(e1) <==> Readonly in e1.origin.flag)
    ensures IsFallback(e1) == IsFallback(e2)
    ensures IsFallback(e1) <==> e1.origin.name == STR_FALLBACK && Payable in e1.origin.flag
    ensures e1.EventLogElement? && e2.EventLogElement? ==> IndexedArgsCount(e1) == IndexedArgsCount(e2)
  {
  }

  /**
   * On a function whose flag passed `verify_score_flag`, a readonly element is
   * external and not payable, so a fallback is never readonly; an event log
   * carries no other bit.
   */
  lemma VerifiedElementAccessors(e: ScoreElement)
    requires VerifyScoreFlag(ElementFlag(e)).None?
    ensures IsReadonly(e) ==> IsExternal(e) && !IsPayable(e)
    ensures IsFallback(e) ==> !IsReadonly(e)
    ensures EventLogBit in ElementFlag(e) ==> !IsExternal(e) && !IsPayable(e) && !IsReadonly(e)
  {
    if EventLogBit in ElementFlag(e) {
      assert ElementFlag(e) == {EventLogBit};
    }
  }

  /** `create_score_element`: an `EventLog` when the EVENTLOG bit is set, a `Function` otherwise. */
  function CreateScoreElement(f: ScoreFunction): (r: Option<ScoreElement>)
    reads f
    ensures r.Some? <==> NormalizeParams(f.params).Some?
    ensures r.Some? ==> r.value.origin == f && r.value.signature == NormalizeParams(f.params).value
    ensures r.Some? ==> (r.value.EventLogElement? <==> EventLogBit in f.flag)
  {
    var sig := NormalizeParams(f.params);
    if sig.None? then None else Some(ElementOf(f, f.flag, sig.value))
  }

  /** The element kind a flag selects, over an already normalised signature. */
  function ElementOf(f: ScoreFunction, flag: Flag, signature: seq<Param>): ScoreElement
  {
    if EventLogBit in flag then EventLogElement(f, signature) else FunctionElement(f, signature)
  }

  // ------------------------------------------------------ counters

  /** How many of `names` map to an element of the given kind. */
  function CountKind(names: seq<string>, elements: map<string, ScoreElement>, eventLog: bool): nat
  {
    if names == [] then 0
    else
      (if names[0] in elements && elements[names[0]].EventLogElement? == eventLog then 1 else 0)
      + CountKind(names[1..], elements, eventLog)
  }

  /** `names` without `k`, order kept. */
  function RemoveName(names: seq<string>, k: string): (r: seq<string>)
    ensures forall n :: n in r <==> n in names && n != k
    ensures k !in names ==> r == names
    ensures forall i :: 0 <= i < |names| && names[i] == k && NoDuplicates(names) ==> r == names[..i] + names[i + 1..]
  {
    if names == [] then []
    else if names[0] == k then RemoveName(names[1..], k)
    else [names[0]] + RemoveName(names[1..], k)
  }

  predicate NoDuplicates(names: seq<string>)
  {
    forall i, j :: 0 <= i < j < |names| ==> names[i] != names[j]
  }

  /** Functions and event logs together are all the elements. */
  lemma {:induction false} CountsAddUp(names: seq<string>, elements: map<string, ScoreElement>)
    requires forall n :: n in names ==> n in elements
    ensures CountKind(names, elements, false) + CountKind(names, elements, true) == |names|
  {
    if names != [] {
      CountsAddUp(names[1..], elements);
    }
  }

  /** Setting a name outside `names` does not change their count. */
  lemma {:induction false} CountUpdateOutside(names: seq<string>, elements: map<string, ScoreElement>, k: string, v: ScoreElement, b: bool)
    requires k !in names
    ensures CountKind(names, elements[k := v], b) == CountKind(names, elements, b)
  {
    if names != [] {
      CountUpdateOutside(names[1..], elements, k, v, b);
    }
  }

  lemma {:induction false} CountAppend(names: seq<string>, k: string, elements: map<string, ScoreElement>, b: bool)
    ensures CountKind(names + [k], elements, b)
            == CountKind(names, elements, b) + (if k in elements && elements[k].EventLogElement? == b then 1 else 0)
  {
    if names == [] {
      assert names + [k] == [k];
    } else {
      assert (names + [k])[1..] == names[1..] + [k];
      CountAppend(names[1..], k, elements, b);
    }
  }

  /** Removing one name drops the count of its kind by one and leaves the other. */
  lemma {:induction false} CountRemove(names: seq<string>, elements: map<string, ScoreElement>, k: string, b: bool)
    requires NoDuplicates(names) && k in names && k in elements
    ensures CountKind(RemoveName(names, k), elements - {k}, b)
            == CountKind(names, elements, b) - (if elements[k].EventLogElement? == b then 1 else 0)
  {
    if names[0] == k {
      assert k !in names[1..] by {
        forall i | 0 <= i < |names[1..]| ensures names[1..][i] != k {
          assert names[1..][i] == names[i + 1];
        }
      }
      CountRemoveAbsent(names[1..], elements, k, b);
    } else {
      assert NoDuplicates(names[1..]) by {
        forall i, j | 0 <= i < j < |names[1..]| ensures names[1..][i] != names[1..][j] {
          assert names[1..][i] == names[i + 1] && names[1..][j] == names[j + 1];
        }
      }
      CountRemove(names[1..], elements, k, b);
    }
  }

  lemma {:induction false} CountRemoveAbsent(names: seq<string>, elements: map<string, ScoreElement>, k: string, b: bool)
    requires k !in names
    ensures RemoveName(names, k) == names
    ensures CountKind(names, elements - {k}, b) == CountKind(names, elements, b)
  {
    if names != [] {
      CountRemoveAbsent(names[1..], elements, k, b);
    }
  }

  lemma {:induction false} RemoveNameKeepsNoDuplicates(names: seq<string>, k: string)
    requires NoDuplicates(names)
    ensures NoDuplicates(RemoveName(names, k))
  {
    if names != [] {
      assert NoDuplicates(names[1..]) by {
        forall i, j | 0 <= i < j < |names[1..]| ensures names[1..][i] != names[1..][j] {
          assert names[1..][i] == names[i + 1] && names[1..][j] == names[j + 1];
        }
      }
      RemoveNameKeepsNoDuplicates(names[1..], k);
      if names[0] != k {
        var rest := RemoveName(names[1..], k);
        assert names[0] !in rest by {
          assert forall i :: 1 <= i < |names| ==> names[i] != names[0];
          assert forall n :: n in names[1..] ==> n != names[0];
        }
      }
    }
  }

  // ------------------------------------------------------ counters on delete

  /** The counters after inserting an element of the given kind under a fresh name. */
  function InsertCounters(externals: int, eventlogs: int, e: ScoreElement): (int, int)
  {
    if e.FunctionElement? then (externals + 1, eventlogs) else (externals, eventlogs + 1)
  }

  /**
   * `__delitem__` as written: it asks `is_any_score_flag_on(element, EVENTLOG)`
   * of the element wrapper, which holds no flag attribute of its own (its flag
   * is a property read from the origin), so the flag it reads is the default
   * `NONE` and the externals counter is always the one decremented.
   */
  function DeleteCountersAsWritten(externals: int, eventlogs: int, e: ScoreElement): (r: (int, int))
    ensures r.0 == externals - 1 && r.1 == eventlogs
  {
    var wrapperFlag := NONE;
    if EventLogBit in wrapperFlag then (externals, eventlogs - 1) else (externals - 1, eventlogs)
  }

  /** `__delitem__` as intended: the counter of the deleted element's kind. */
  function DeleteCounters(externals: int, eventlogs: int, e: ScoreElement): (r: (int, int))
    ensures r.0 + r.1 == externals + eventlogs - 1
    ensures e.FunctionElement? ==> r.1 == eventlogs
    ensures e.EventLogElement? ==> r.0 == externals
  {
    if e.EventLogElement? then (externals, eventlogs - 1) else (externals - 1, eventlogs)
  }

  /** Deleting what was just inserted restores the counters. */
  lemma DeleteUndoesInsert(externals: int, eventlogs: int, e: ScoreElement)
    ensures var c := InsertCounters(externals, eventlogs, e);
            DeleteCounters(c.0, c.1, e) == (externals, eventlogs)
  {
  }

  /** As written, inserting then deleting an event log moves one count from externals to eventlogs. */
  lemma DeleteEventLogAsWritten(externals: int, eventlogs: int, e: ScoreElement)
    requires e.EventLogElement?
    ensures var c := InsertCounters(externals, eventlogs, e);
            DeleteCountersAsWritten(c.0, c.1, e) == (externals - 1, eventlogs + 1)
  {
  }

  /** The container's invariant on its fields: distinct names that are the keys, counted by kind. */
  ghost predicate ValidState(names: seq<string>, elements: map<string, ScoreElement>, externals: int, eventlogs: int)
  {
    && NoDuplicates(names)
    && (forall n :: n in elements <==> n in names)
    && externals == CountKind(names, elements, false)
    && eventlogs == CountKind(names, elements, true)
  }

  /** Inserting under a fresh name, with the counter of the element's kind raised, keeps the invariant. */
  lemma InsertKeepsValid(names: seq<string>, elements: map<string, ScoreElement>, externals: int, eventlogs: int,
                         k: string, v: ScoreElement)
    requires ValidState(names, elements, externals, eventlogs) && k !in elements
    ensures var c := InsertCounters(externals, eventlogs, v);
            ValidState(names + [k], elements[k := v], c.0, c.1)
  {
    CountUpdateOutside(names, elements, k, v, false);
    CountUpdateOutside(names, elements, k, v, true);
    CountAppend(names, k, elements[k := v], false);
    CountAppend(names, k, elements[k := v], true);
    assert NoDuplicates(names + [k]) by {
      forall i, j | 0 <= i < j < |names + [k]| ensures (names + [k])[i] != (names + [k])[j] {
        assert (names + [k])[i] == names[i];
        if j < |names| {
          assert (names + [k])[j] == names[j];
        } else {
          assert names[i] in names;
        }
      }
    }
  }

  /** Deleting a present name, with the counter of its kind lowered, keeps the invariant. */
  lemma DeleteKeepsValid(names: seq<string>, elements: map<string, ScoreElement>, externals: int, eventlogs: int,
                         k: string)
    requires ValidState(names, elements, externals, eventlogs) && k in elements
    ensures var c := DeleteCounters(externals, eventlogs, elements[k]);
            ValidState(RemoveName(names, k), elements - {k}, c.0, c.1)
  {
    CountRemove(names, elements, k, false);
    CountRemove(names, elements, k, true);
    RemoveNameKeepsNoDuplicates(names, k);
  }

  // ------------------------------------------------------ the container

  datatype ElementFailure =
    | IllegalFlag(violation: FlagViolation)   // IllegalFormatException from verify_score_flag
    | UnsupportedTypeHint                     // IllegalFormatException from normalize_type_hint
    | NotWritable                             // "ScoreElementContainer not writable"
    | MissingKey                              // KeyError

  /** `ScoreElementContainer`: an insertion-ordered map from names to elements. */
  class ScoreElementContainer {
    /** The keys of the ordered dict, in insertion order. */
    var names: seq<string>
    var elements: map<string, ScoreElement>
    var externals: int
    var eventlogs: int
    var readonly: bool

    /** The keys are the names, each once, and the counters count the elements by kind. */
    ghost predicate Valid()
      reads this
    {
      ValidState(names, elements, externals, eventlogs)
    }

    constructor ()
      ensures names == [] && elements == map[] && externals == 0 && eventlogs == 0 && !readonly
      ensures Valid()
    {
      names := [];
      elements := map[];
      externals := 0;
      eventlogs := 0;
      readonly := false;
    }

    /** `__getitem__`; a missing name is a `KeyError`. */
    function Get(k: string): (r: Option<ScoreElement>)
      reads this
      ensures r.Some? <==> k in elements
      ensures r.Some? ==> r.value == elements[k]
    {
      if k in elements then Some(elements[k]) else None
    }

    /** `__len__`. */
    function Len(): (r: nat)
      reads this
      ensures r == 0 <==> elements == map[]
    {
      |elements|
    }

    /**
     * `__setitem__`: refused once frozen; otherwise the element is stored (in
     * place when the name is already there) and the counter of its kind goes
     * up, whether or not the name was fresh.
     */
    method SetItem(k: string, v: ScoreElement) returns (failure: Option<ElementFailure>)
      modifies this
      ensures old(readonly) ==> failure == Some(NotWritable) && unchanged(this)
      ensures !old(readonly) ==>
                && failure.None?
                && elements == old(elements)[k := v]
                && names == (if k in old(names) then old(names) else old(names) + [k])
                && externals == old(externals) + (if v.FunctionElement? then 1 else 0)
                && eventlogs == old(eventlogs) + (if v.EventLogElement? then 1 else 0)
                && readonly == old(readonly)
      ensures old(Valid()) && k !in old(elements) ==> Valid()
    {
      if readonly {
        return Some(NotWritable);
      }
      if Valid() && k !in elements {
        InsertKeepsValid(names, elements, externals, eventlogs, k, v);
      }
      elements := elements[k := v];
      if k !in names {
        names := names + [k];
      }
      if v.FunctionElement? {
        externals := externals + 1;
      } else {
        eventlogs := eventlogs + 1;
      }
      failure := None;
    }

    /**
     * `__delitem__` with the counter of the deleted element's kind decremented:
     * refused once frozen, a `KeyError` for a missing name, and otherwise the
     * name leaves the order and the map.
     */
    method DeleteItem(k: string) returns (failure: Option<ElementFailure>)
      modifies this
      ensures old(readonly) ==> failure == Some(NotWritable) && unchanged(this)
      ensures !old(readonly) && k !in old(elements) ==> failure == Some(MissingKey) && unchanged(this)
      ensures !old(readonly) && k in old(elements) ==>
                && failure.None?
                && elements == old(elements) - {k}
                && names == RemoveName(old(names), k)
                && (externals, eventlogs) == DeleteCounters(old(externals), old(eventlogs), old(elements)[k])
                && readonly == old(readonly)
      ensures old(Valid()) ==> Valid()
    {
      if readonly {
        return Some(NotWritable);
      }
      if k !in elements {
        return Some(MissingKey);
      }
      var element := elements[k];
      if Valid() {
        DeleteKeepsValid(names, elements, externals, eventlogs, k);
      }
      var counters := DeleteCounters(externals, eventlogs, element);
      elements := elements - {k};
      names := RemoveName(names, k);
      externals, eventlogs := counters.0, counters.1;
      failure := None;
    }

    /** `freeze`: from now on every write is refused. */
    method Freeze()
      modifies this
      ensures readonly
      ensures names == old(names) && elements == old(elements)
      ensures externals == old(externals) && eventlogs == old(eventlogs)
      ensures old(Valid()) ==> Valid()
    {
      readonly := true;
    }
  }

  /** In a valid container the length is the number of names and the sum of the two counters. */
  lemma LenCountsElements(c: ScoreElementContainer)
    requires c.Valid()
    ensures c.Len() == |c.names| == c.externals + c.eventlogs
  {
    CountsAddUp(c.names, c.elements);
    ElementsCardinality(c.names, c.elements);
  }

  /** The names as a set. */
  function NameSet(names: seq<string>): (r: set<string>)
    ensures forall n :: n in r <==> n in names
  {
    if names == [] then {} else {names[0]} + NameSet(names[1..])
  }

  /** Distinct names are as many as their set. */
  lemma {:induction false} NameSetSize(names: seq<string>)
    requires NoDuplicates(names)
    ensures |NameSet(names)| == |names|
  {
    if names != [] {
      assert NoDuplicates(names[1..]) by {
        forall i, j | 0 <= i < j < |names[1..]| ensures names[1..][i] != names[1..][j] {
          assert names[1..][i] == names[i + 1] && names[1..][j] == names[j + 1];
        }
      }
      NameSetSize(names[1..]);
      assert names[0] !in NameSet(names[1..]) by {
        forall i | 0 <= i < |names[1..]| ensures names[1..][i] != names[0] {
          assert names[1..][i] == names[i + 1];
        }
      }
    }
  }

  /** With distinct names that are exactly the keys, there are as many keys as names. */
  lemma ElementsCardinality(names: seq<string>, elements: map<string, ScoreElement>)
    requires NoDuplicates(names) && forall n :: n in elements <==> n in names
    ensures |elements| == |names|
  {
    NameSetSize(names);
    assert elements.Keys == NameSet(names);
  }

  // ------------------------------------------------------ the scan

  /** The part of a function `create_score_elements` looks at. */
  datatype FunctionInfo = FunctionInfo(name: string, flag: Flag, params: seq<Param>)

  function Snapshot(members: seq<ScoreFunction>): (r: seq<FunctionInfo>)
    reads set i | 0 <= i < |members| :: members[i]
    ensures |r| == |members|
    ensures forall i :: 0 <= i < |r| ==> r[i] == FunctionInfo(members[i].name, members[i].flag, members[i].params)
  {
    seq(|members|, i reads members requires 0 <= i < |members| => FunctionInfo(members[i].name, members[i].flag, members[i].params))
  }

  predicate HasDoubleUnderscorePrefix(name: string)
  {
    |name| >= 2 && name[0] == '_' && name[1] == '_'
  }

  /** A function the scan collects: a name that does not start with `__`, and some FUNC or EVENTLOG bit on. */
  predicate IsCandidate(info: FunctionInfo, funcMask: Flag)
  {
    !HasDoubleUnderscorePrefix(info.name) && info.flag * (funcMask + {EventLogBit}) != NONE
  }

  /** The outcome of the scan: the indices of the collected functions, or the first error. */
  datatype ScanResult = Collected(indices: seq<nat>) | Raised(failure: ElementFailure)

  /** `create_score_elements` over the first `|infos|` functions. */
  function Scan(infos: seq<FunctionInfo>, funcMask: Flag): (r: ScanResult)
    ensures r.Collected? ==> forall j :: 0 <= j < |r.indices| ==> r.indices[j] < |infos|
  {
    if infos == [] then Collected([])
    else ScanNext(Scan(infos[..|infos| - 1], funcMask), infos[|infos| - 1], |infos| - 1, funcMask)
  }

  /** One step of the scan: the function at index `n` after the ones before it. */
  function ScanNext(prev: ScanResult, info: FunctionInfo, n: nat, funcMask: Flag): ScanResult
  {
    if prev.Raised? || !IsCandidate(info, funcMask) then prev
    else if VerifyScoreFlag(info.flag).Some? then Raised(IllegalFlag(VerifyScoreFlag(info.flag).value))
    else if NormalizeParams(info.params).None? then Raised(UnsupportedTypeHint)
    else Collected(prev.indices + [n])
  }

  lemma ScanStep(infos: seq<FunctionInfo>, i: nat, funcMask: Flag)
    requires i < |infos|
    ensures Scan(infos[..i + 1], funcMask) == ScanNext(Scan(infos[..i], funcMask), infos[i], i, funcMask)
  {
    assert infos[..i + 1][..i] == infos[..i];
  }

  /** Once the scan has raised, the functions after it change nothing. */
  lemma {:induction false} ScanRaisedStays(infos: seq<FunctionInfo>, k: nat, funcMask: Flag)
    requires k <= |infos| && Scan(infos[..k], funcMask).Raised?
    ensures Scan(infos, funcMask) == Scan(infos[..k], funcMask)
  {
    if k < |infos| {
      var n := |infos| - 1;
      assert infos[..n][..k] == infos[..k];
      ScanRaisedStays(infos[..n], k, funcMask);
    } else {
      assert infos[..k] == infos;
    }
  }

  /** A candidate the scan accepts: its flag is legal and its signature normalises. */
  predicate Acceptable(info: FunctionInfo)
  {
    VerifyScoreFlag(info.flag).None? && NormalizeParams(info.params).Some?
  }

  /**
   * The scan succeeds exactly when every candidate is acceptable, and then it
   * collects exactly the candidates, in order.
   */
  lemma {:induction false} ScanCollectsCandidates(infos: seq<FunctionInfo>, funcMask: Flag)
    ensures Scan(infos, funcMask).Collected?
            <==> forall i :: 0 <= i < |infos| && IsCandidate(infos[i], funcMask) ==> Acceptable(infos[i])
    ensures Scan(infos, funcMask).Collected? ==>
              && (forall i :: i in Scan(infos, funcMask).indices <==> 0 <= i < |infos| && IsCandidate(infos[i], funcMask))
              && (forall j, k :: 0 <= j < k < |Scan(infos, funcMask).indices| ==>
                    Scan(infos, funcMask).indices[j] < Scan(infos, funcMask).indices[k])
  {
    if infos != [] {
      var n := |infos| - 1;
      ScanCollectsCandidates(infos[..n], funcMask);
      assert forall i :: 0 <= i < n ==> infos[..n][i] == infos[i];
    }
  }

  /** A failing scan reports the first candidate that is not acceptable. */
  lemma {:induction false} ScanRaisesFirstFailure(infos: seq<FunctionInfo>, funcMask: Flag, i: nat)
    requires i < |infos| && IsCandidate(infos[i], funcMask) && !Acceptable(infos[i])
    requires forall j :: 0 <= j < i && IsCandidate(infos[j], funcMask) ==> Acceptable(infos[j])
    ensures Scan(infos, funcMask)
            == Raised(if VerifyScoreFlag(infos[i].flag).Some? then IllegalFlag(VerifyScoreFlag(infos[i].flag).value)
                      else UnsupportedTypeHint)
  {
    var n := |infos| - 1;
    if i < n {
      assert forall j :: 0 <= j < n ==> infos[..n][j] == infos[j];
      ScanRaisesFirstFailure(infos[..n], funcMask, i);
    } else {
      ScanCollectsCandidates(infos[..n], funcMask);
      assert forall j :: 0 <= j < n ==> infos[..n][j] == infos[j];
    }
  }

  datatype Created = Created(value: ScoreElementContainer) | CreateFailed(failure: ElementFailure)

  predicate DistinctNames(members: seq<ScoreFunction>)
  {
    forall i, j :: 0 <= i < j < |members| ==> members[i].name != members[j].name
  }

  /**
   * `create_score_elements`: collect the candidates, each checked and made an
   * element, then freeze the container.  `getmembers` gives each name once.
   */
  method CreateScoreElements(members: seq<ScoreFunction>, funcMask: Flag)
    returns (r: Created)
    requires DistinctNames(members)
    ensures match Scan(Snapshot(members), funcMask)
            case Raised(f) => r == CreateFailed(f)
            case Collected(indices) =>
              && r.Created? && fresh(r.value) && r.value.readonly && r.value.Valid()
              && |r.value.names| == |indices|
              && forall j :: 0 <= j < |indices| ==>
                   && r.value.names[j] == members[indices[j]].name
                   && r.value.names[j] in r.value.elements
                   && Some(r.value.elements[r.value.names[j]]) == CreateScoreElement(members[indices[j]])
  {
    ghost var infos := Snapshot(members);
    var elements, failure;
    ghost var indices;
    elements, indices, failure := CollectElements(members, funcMask, infos);
    if failure.Some? {
      return CreateFailed(failure.value);
    }
    elements.Freeze();
    r := Created(elements);
    forall j | 0 <= j < |indices|
      ensures CreateScoreElement(members[indices[j]])
              == Some(ElementOf(members[indices[j]], infos[indices[j]].flag, NormalizeParams(infos[indices[j]].params).value))
    {
    }
  }

  /** The loop of `create_score_elements`, before the freeze. */
  method CollectElements(members: seq<ScoreFunction>, funcMask: Flag, ghost infos: seq<FunctionInfo>)
    returns (elements: ScoreElementContainer, ghost indices: seq<nat>, failure: Option<ElementFailure>)
    requires infos == Snapshot(members) && DistinctNames(members)
    ensures fresh(elements)
    ensures failure.Some? ==> Scan(infos, funcMask) == Raised(failure.value)
    ensures failure.None? ==>
              && Scan(infos, funcMask) == Collected(indices)
              && !elements.readonly && elements.Valid()
              && CollectedState(elements.names, elements.elements, indices, infos, members, |infos|)
  {
    elements := new ScoreElementContainer();
    indices := [];
    var i := 0;
    while i < |members|
      invariant 0 <= i <= |members|
      invariant fresh(elements) && !elements.readonly && elements.Valid()
      invariant Scan(infos[..i], funcMask) == Collected(indices)
      invariant CollectedState(elements.names, elements.elements, indices, infos, members, i)
    {
      ScanStep(infos, i, funcMask);
      var f := members[i];
      assert infos[i] == FunctionInfo(f.name, f.flag, f.params);
      if HasDoubleUnderscorePrefix(f.name) {
        i := i + 1;
        continue;
      }
      var flag := f.flag;
      if flag * (funcMask + {EventLogBit}) != {} {
        var violation := VerifyScoreFlag(flag);
        if violation.Some? {
          ScanRaisedStays(infos, i + 1, funcMask);
          return elements, indices, Some(IllegalFlag(violation.value));
        }
        var sig := NormalizeSignature(f.params);
        if sig.None? {
          ScanRaisedStays(infos, i + 1, funcMask);
          return elements, indices, Some(UnsupportedTypeHint);
        }
        CollectedExtend(elements.names, elements.elements, indices, infos, members, i);
        var _ := elements.SetItem(f.name, ElementOf(f, flag, sig.value));
        indices := indices + [i];
      } else {
        CollectedSkip(elements.names, elements.elements, indices, infos, members, i);
      }
      i := i + 1;
    }
    assert infos[..i] == infos;
    failure := None;
  }

  /**
   * The container built so far holds, in order, the element of every index
   * collected, each under its function's name, all below `i`.
   */
  ghost predicate CollectedState(names: seq<string>, elements: map<string, ScoreElement>, indices: seq<nat>,
                                 infos: seq<FunctionInfo>, members: seq<ScoreFunction>, i: nat)
  {
    && |infos| == |members|
    && |names| == |indices|
    && forall j :: 0 <= j < |indices| ==>
         && indices[j] < i <= |infos|
         && names[j] == infos[indices[j]].name
         && names[j] in elements
         && NormalizeParams(infos[indices[j]].params).Some?
         && elements[names[j]]
            == ElementOf(members[indices[j]], infos[indices[j]].flag, NormalizeParams(infos[indices[j]].params).value)
  }

  lemma CollectedSkip(names: seq<string>, elements: map<string, ScoreElement>, indices: seq<nat>,
                      infos: seq<FunctionInfo>, members: seq<ScoreFunction>, i: nat)
    requires CollectedState(names, elements, indices, infos, members, i) && i < |infos|
    ensures CollectedState(names, elements, indices, infos, members, i + 1)
  {
  }

  /** Collecting the function at `i`, whose name is new since names are distinct. */
  lemma CollectedExtend(names: seq<string>, elements: map<string, ScoreElement>, indices: seq<nat>,
                        infos: seq<FunctionInfo>, members: seq<ScoreFunction>, i: nat)
    requires CollectedState(names, elements, indices, infos, members, i) && i < |infos|
    requires forall a, b :: 0 <= a < b < |infos| ==> infos[a].name != infos[b].name
    requires NormalizeParams(infos[i].params).Some?
    ensures infos[i].name !in names
    ensures CollectedState(names + [infos[i].name],
                           elements[infos[i].name := ElementOf(members[i], infos[i].flag, NormalizeParams(infos[i].params).value)],
                           indices + [i], infos, members, i + 1)
  {
    var k := infos[i].name;
    forall j | 0 <= j < |names| ensures names[j] != k {
      assert infos[indices[j]].name != infos[i].name;
    }
  }

  // ------------------------------------------------------ lookup

  datatype Lookup = Found(element: ScoreElement) | NotFound(exception: Exceptions.ServiceException)

  /**
   * `get_score_element`: the element of that name, or a
   * `MethodNotFoundException` naming the SCORE's type and the function.
   */
  function GetScoreElement(typeName: string, elements: ScoreElementContainer, funcName: string): (r: Lookup)
    reads elements
    ensures funcName in elements.elements ==> r == Found(elements.elements[funcName])
    ensures funcName !in elements.elements ==>
              && r.NotFound?
              && r.exception.kind == Exceptions.MethodNotFoundKind
              && Exceptions.CodeValue(r.exception.code) == 3
              && r.exception.message == "Method not found: " + typeName + "." + funcName
  {
    match elements.Get(funcName)
    case Some(e) => Found(e)
    case None =>
      NotFound(Exceptions.NewFixed(Exceptions.MethodNotFoundKind,
                                   Some("Method not found: " + typeName + "." + funcName)))
  }
}
