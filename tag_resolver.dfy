/** The tag resolution step of the machine tag action (`Action.get_tags`):
    pick the raw tag source from the action configuration or the event
    payload, normalise its shape into a list of candidate tag ids, and keep
    the ids that exist in the tag registry. Logged errors become an
    enumerated diagnostic in the result. */
module TagResolver {
  import opened Wrappers
  import opened IntParsing

  /** An element of a tag list: Python's `int()` accepts an int or a string. */
  datatype Elem = EInt(n: int) | EStr(s: string)

  /** The loosely typed value found under `tags` or in the event payload.
      A dict is only ever rejected, so only its size (its truthiness) is kept. */
  datatype Raw =
    | RNone
    | RInt(n: int)
    | RStr(s: string)
    | RList(elems: seq<Elem>)
    | RDict(size: nat)

  /** The keys of the action configuration that the action reads.
      `tags` and `tags_from_event_payload_attr` may be absent. */
  datatype ActionConfig = ActionConfig(
    tags: Option<Raw>,
    tagsFromEventPayloadAttr: Option<string>,
    action: string)

  /** The event payload, a mapping from attribute names to values. */
  type Payload = map<string, Raw>

  /** What the source logs while resolving. */
  datatype Diagnostic = Missing | BadShape | BadList | BadValue | SomeNotFound

  /** The diagnostics of an early return; "some tags could not be found" is
      not one of them, as it still returns the tags that were found. */
  type Rejection = d: Diagnostic | d != SomeNotFound witness Missing

  /** `Rejected` is an early `return` (None in Python); `Resolved` is the
      tag queryset, with the flag for "some tags could not be found". */
  datatype Resolution =
    | Rejected(reason: Rejection)
    | Resolved(ids: set<int>, someNotFound: bool)
  {
    /** The tag ids the caller iterates over; none after a rejection. */
    function Ids(): set<int> {
      if Resolved? then ids else {}
    }

    /** The diagnostic logged while resolving, if any. */
    function Diag(): Option<Diagnostic> {
      match this
      case Rejected(d) => Some(d)
      case Resolved(_, notFound) => if notFound then Some(SomeNotFound) else None
    }
  }

  /** Python truthiness of the raw value. */
  predicate IsFalsy(raw: Raw) {
    match raw
    case RNone => true
    case RInt(n) => n == 0
    case RStr(s) => s == ""
    case RList(es) => es == []
    case RDict(size) => size == 0
  }

  /** The raw tag source: `tags` if present, else the payload attribute
      named by `tags_from_event_payload_attr` (an empty list when the payload
      lacks it), else None. */
  function SelectRaw(config: ActionConfig, payload: Payload): Raw {
    if config.tags.Some? then
      config.tags.value
    else if config.tagsFromEventPayloadAttr.Some? then
      var attr := config.tagsFromEventPayloadAttr.value;
      if attr in payload then payload[attr] else RList([])
    else
      RNone
  }

  /** Python's `int(t)` on a list element. */
  function ElemToInt(e: Elem): Option<int> {
    match e
    case EInt(n) => Some(n)
    case EStr(s) => ParseInt(s)
  }

  /** `[int(t) for t in tags]`: every element converted, or None as soon as
      one conversion fails; never a partial list. */
  function ParseList(es: seq<Elem>): (r: Option<seq<int>>)
    ensures r.Some? <==> forall i :: 0 <= i < |es| ==> ElemToInt(es[i]).Some?
    ensures r.Some? ==>
      |r.value| == |es| && forall i :: 0 <= i < |es| ==> ElemToInt(es[i]) == Some(r.value[i])
  {
    if es == [] then
      Some([])
    else
      match (ElemToInt(es[0]), ParseList(es[1..]))
      case (Some(n), Some(rest)) => Some([n] + rest)
      case _ => None
  }

  /** Shape normalisation: the list of candidate tag ids, or the diagnostic
      of the early return. */
  function Candidates(raw: Raw): (r: Result<seq<int>, Diagnostic>)
    ensures r.Failure? ==> r.error != SomeNotFound
  {
    if IsFalsy(raw) then
      Failure(Missing)
    else
      match raw
      case RNone => Failure(Missing)  // None is falsy: caught above
      case RDict(_) => Failure(BadShape)
      case RList(es) =>
        (match ParseList(es)
         case Some(ids) => Success(ids)
         case None => Failure(BadList))
      case RStr(s) =>
        (match ParseInt(s)
         case Some(n) => Success([n])
         case None => Failure(BadValue))
      case RInt(n) => Success([n])
  }

  function ToSet(s: seq<int>): set<int> {
    set x | x in s
  }

  /** `Tag.objects.filter(pk__in=tags)` and the count comparison. */
  function Lookup(candidates: seq<int>, registry: set<int>): Resolution {
    var found := registry * ToSet(candidates);
    Resolved(found, |found| < |candidates|)
  }

  function Resolve(raw: Raw, registry: set<int>): Resolution {
    match Candidates(raw)
    case Failure(d) => Rejected(d)
    case Success(candidates) => Lookup(candidates, registry)
  }

  /** `Action.get_tags` against the tag registry `registry`. */
  function GetTags(config: ActionConfig, payload: Payload, registry: set<int>): Resolution {
    Resolve(SelectRaw(config, payload), registry)
  }

  predicate Distinct(s: seq<int>) {
    forall i, j :: 0 <= i < j < |s| ==> s[i] != s[j]
  }

  // ---------------------------------------------------------------------
  // Source selection

  /** When `tags` is present the payload and the payload attribute are never
      consulted. */
  lemma TagsTakePrecedence(config: ActionConfig, payload: Payload, otherPayload: Payload, registry: set<int>)
    requires config.tags.Some?
    ensures GetTags(config, payload, registry)
         == GetTags(config.(tagsFromEventPayloadAttr := None), otherPayload, registry)
    ensures GetTags(config, payload, registry) == Resolve(config.tags.value, registry)
  {
  }

  /** Without `tags`, the payload attribute is read; a payload lacking it
      counts as an empty list, which is missing. */
  lemma PayloadAttrSource(config: ActionConfig, payload: Payload, registry: set<int>)
    requires config.tags.None? && config.tagsFromEventPayloadAttr.Some?
    ensures var attr := config.tagsFromEventPayloadAttr.value;
      GetTags(config, payload, registry)
        == if attr in payload then Resolve(payload[attr], registry) else Rejected(Missing)
  {
  }

  /** Neither key: nothing to resolve. */
  lemma NoSourceIsMissing(config: ActionConfig, payload: Payload, registry: set<int>)
    requires config.tags.None? && config.tagsFromEventPayloadAttr.None?
    ensures GetTags(config, payload, registry) == Rejected(Missing)
  {
  }

  // ---------------------------------------------------------------------
  // Shape normalisation

  /** Exactly the falsy values (None, 0, "", [], {}) take the missing path. */
  lemma MissingIffFalsy(raw: Raw, registry: set<int>)
    ensures Resolve(raw, registry) == Rejected(Missing) <==> IsFalsy(raw)
  {
  }

  /** Exactly the non-empty dicts are rejected for their shape. */
  lemma BadShapeIffDict(raw: Raw, registry: set<int>)
    ensures Resolve(raw, registry) == Rejected(BadShape) <==> raw.RDict? && raw.size > 0
  {
  }

  /** A non-empty list is all-or-nothing: either every element converts and
      the candidates are those values in order, or the list is rejected. */
  lemma ListAllOrNothing(es: seq<Elem>, registry: set<int>)
    requires es != []
    ensures (forall i :: 0 <= i < |es| ==> ElemToInt(es[i]).Some?) ==>
      Candidates(RList(es)).Success? &&
      |Candidates(RList(es)).value| == |es| &&
      forall i :: 0 <= i < |es| ==> Some(Candidates(RList(es)).value[i]) == ElemToInt(es[i])
    ensures (exists i :: 0 <= i < |es| && ElemToInt(es[i]).None?) ==>
      Candidates(RList(es)) == Failure(BadList) && Resolve(RList(es), registry) == Rejected(BadList)
  {
  }

  /** A string spelling n gives the one candidate [n] and is looked up as
      such; for a non-zero n that is exactly how the integer n resolves. */
  lemma StringLikeInt(s: string, n: int, registry: set<int>)
    requires ParseInt(s) == Some(n)
    ensures Candidates(RStr(s)) == Success([n])
    ensures Resolve(RStr(s), registry) == Lookup([n], registry)
    ensures n != 0 ==> Candidates(RInt(n)) == Success([n])
    ensures n != 0 ==> Resolve(RStr(s), registry) == Resolve(RInt(n), registry)
  {
  }

  /** The exception to StringLikeInt: a string spelling 0 ("0", "00", "-0",
      "+0", ...) is truthy and looked up, while the integer 0 is falsy and
      missing. */
  lemma ZeroStringIsNotZeroInt(s: string, registry: set<int>)
    requires ParseInt(s) == Some(0)
    ensures Resolve(RStr(s), registry) == Lookup([0], registry)
    ensures Resolve(RInt(0), registry) == Rejected(Missing)
    ensures Resolve(RStr(s), registry) != Resolve(RInt(0), registry)
  {
  }

  /** A non-empty string is rejected as a bad value exactly when Python's
      `int()` would raise on it. */
  lemma BadValueIffUnparsable(s: string, registry: set<int>)
    ensures Resolve(RStr(s), registry) == Rejected(BadValue) <==> s != "" && !IsDecimal(s)
  {
  }

  // ---------------------------------------------------------------------
  // Registry filtering

  lemma {:induction false} ToSetCard(s: seq<int>)
    ensures |ToSet(s)| <= |s|
    ensures |ToSet(s)| == |s| <==> Distinct(s)
  {
    if s != [] {
      var tail := s[1..];
      ToSetCard(tail);
      assert ToSet(s) == {s[0]} + ToSet(tail);
      if s[0] in tail {
        assert ToSet(s) == ToSet(tail);
        var j :| 0 <= j < |tail| && tail[j] == s[0];
        assert s[0] == s[j + 1];
      } else {
        assert Distinct(s) <==> Distinct(tail) by {
          if Distinct(tail) {
            forall i, j | 0 <= i < j < |s| ensures s[i] != s[j] {
              if i > 0 {
                assert s[i] == tail[i - 1] && s[j] == tail[j - 1];
              } else {
                assert s[j] == tail[j - 1];
              }
            }
          }
          if Distinct(s) {
            forall i, j | 0 <= i < j < |tail| ensures tail[i] != tail[j] {
              assert tail[i] == s[i + 1] && tail[j] == s[j + 1];
            }
          }
        }
      }
    }
  }

  lemma SubsetCard(a: set<int>, b: set<int>)
    requires a <= b
    ensures |a| <= |b|
    ensures |a| == |b| <==> a == b
  {
    assert b == a + (b - a);
    assert a * (b - a) == {};
    if |a| == |b| {
      assert |b - a| == 0;
    }
  }

  /** The found tags are the registry members among the candidates. */
  lemma LookupIsIntersection(candidates: seq<int>, registry: set<int>)
    ensures Lookup(candidates, registry).Resolved?
    ensures forall t :: t in Lookup(candidates, registry).Ids() <==> t in registry && t in candidates
  {
  }

  /** "Some tags could not be found" is reported exactly when the candidates
      are not distinct registry ids; so a repeated id triggers it even when
      every id exists. */
  lemma NotFoundIff(candidates: seq<int>, registry: set<int>)
    ensures Lookup(candidates, registry).Diag() == Some(SomeNotFound)
      <==> !(Distinct(candidates) && forall i :: 0 <= i < |candidates| ==> candidates[i] in registry)
  {
    var cs := ToSet(candidates);
    ToSetCard(candidates);
    SubsetCard(registry * cs, cs);
    if forall i :: 0 <= i < |candidates| ==> candidates[i] in registry {
      assert cs <= registry;
      assert registry * cs == cs;
    } else {
      var i :| 0 <= i < |candidates| && candidates[i] !in registry;
      assert candidates[i] in cs - registry * cs;
    }
  }

  lemma DuplicatesReportNotFound(candidates: seq<int>, registry: set<int>, i: nat, j: nat)
    requires i < j < |candidates| && candidates[i] == candidates[j]
    ensures Lookup(candidates, registry) == Resolved(registry * ToSet(candidates), true)
  {
    NotFoundIff(candidates, registry);
  }

  /** Whatever the input, the resolved ids exist in the registry, and a
      resolution that is not rejected returns exactly the registry ids among
      the candidates. */
  lemma ResolvedWithinRegistry(raw: Raw, registry: set<int>)
    ensures Resolve(raw, registry).Ids() <= registry
    ensures Resolve(raw, registry).Rejected? <==> Candidates(raw).Failure?
    ensures Candidates(raw).Success? ==>
      Resolve(raw, registry).Ids() == registry * ToSet(Candidates(raw).value)
  {
  }

  /** The end-to-end case: payload {"tag_ids": [1, 2, 999]}, the config names
      that attribute, the registry holds {1, 2}: tags 1 and 2 are found and
      999 is reported as not found. */
  lemma PayloadExample(action: string)
    ensures var config := ActionConfig(None, Some("tag_ids"), action);
      var payload := map["tag_ids" := RList([EInt(1), EInt(2), EInt(999)])];
      GetTags(config, payload, {1, 2}) == Resolved({1, 2}, true)
  {
    var es, cands := [EInt(1), EInt(2), EInt(999)], [1, 2, 999];
    assert ElemToInt(es[0]).Some? && ElemToInt(es[1]).Some? && ElemToInt(es[2]).Some?;
    assert ParseList(es).value == cands;
    assert ToSet(cands) == {1, 2, 999};
    assert {1, 2} * {1, 2, 999} == {1, 2};
  }
}
