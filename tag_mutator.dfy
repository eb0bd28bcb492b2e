/** The mutation step of the machine tag action (`Action.trigger`): for each
    resolved tag, create or delete the (serial number, tag) row of the
    MachineTag table, and fail on an unknown action before any change. */
module TagMutator {
  import opened Wrappers
  import opened TagResolver

  /** A MachineTag row: (machine serial number, tag id). */
  type Pair = (string, int)

  /** `Completed` is a normal return; `UnknownAction` is the ValueError. */
  datatype Outcome = Completed | UnknownAction

  /** The rows that tag machine `msn` with one of `ids`. */
  function PairsFor(msn: string, ids: set<int>): (r: set<Pair>)
    ensures forall p :: p in r <==> p.0 == msn && p.1 in ids
  {
    var r := set t | t in ids :: (msn, t);
    forall p: Pair | p.0 == msn && p.1 in ids
      ensures p in r
    {
      var t := p.1;
      assert t in ids;
      assert (msn, t) in r;
      assert p == (msn, t);
    }
    r
  }

  /** The table after `get_or_create` for each tag in `ids`. */
  function AddTags(pairs: set<Pair>, msn: string, ids: set<int>): (r: set<Pair>)
    ensures forall p :: p in r <==> p in pairs || (p.0 == msn && p.1 in ids)
  {
    pairs + PairsFor(msn, ids)
  }

  /** The table after `filter(...).delete()` for each tag in `ids`. */
  function RemoveTags(pairs: set<Pair>, msn: string, ids: set<int>): (r: set<Pair>)
    ensures forall p :: p in r <==> p in pairs && !(p.0 == msn && p.1 in ids)
  {
    pairs - PairsFor(msn, ids)
  }

  /** What one trigger does to the table, given the resolved ids: nothing at
      all (and no look at `action`) when there are none, otherwise add or
      remove them, or fail without any change on another action. */
  function Effect(pairs: set<Pair>, msn: string, ids: set<int>, action: string): (Outcome, set<Pair>) {
    if ids == {} then (Completed, pairs)
    else if action == "add" then (Completed, AddTags(pairs, msn, ids))
    else if action == "remove" then (Completed, RemoveTags(pairs, msn, ids))
    else (UnknownAction, pairs)
  }

  /** Referential integrity of the MachineTag table: every row names a tag of
      the registry. */
  ghost predicate RowsInRegistry(pairs: set<Pair>, registry: set<int>) {
    forall p :: p in pairs ==> p.1 in registry
  }

  // ---------------------------------------------------------------------
  // Properties of the effect

  /** Nothing resolved: no change and no failure, whatever `action` says. */
  lemma EmptyNeverChecksAction(pairs: set<Pair>, msn: string, action: string)
    ensures Effect(pairs, msn, {}, action) == (Completed, pairs)
  {
  }

  /** An unknown action with something resolved fails with zero mutations;
      "add" and "remove" never fail. */
  lemma UnknownActionFailsClosed(pairs: set<Pair>, msn: string, ids: set<int>, action: string)
    ensures Effect(pairs, msn, ids, action).0 == UnknownAction
      <==> ids != {} && action != "add" && action != "remove"
    ensures Effect(pairs, msn, ids, action).0 == UnknownAction ==>
      Effect(pairs, msn, ids, action).1 == pairs
  {
  }

  /** Rows for other serial numbers or other tags are untouched. */
  lemma OthersUntouched(pairs: set<Pair>, msn: string, ids: set<int>, action: string, p: Pair)
    requires p.0 != msn || p.1 !in ids
    ensures p in Effect(pairs, msn, ids, action).1 <==> p in pairs
  {
  }

  /** After "add" every resolved tag is on the machine; after "remove" none is. */
  lemma EffectOnResolved(pairs: set<Pair>, msn: string, ids: set<int>, t: int)
    requires t in ids
    ensures (msn, t) in Effect(pairs, msn, ids, "add").1
    ensures (msn, t) !in Effect(pairs, msn, ids, "remove").1
  {
  }

  /** Running the same trigger twice changes nothing the second time. */
  lemma EffectIdempotent(pairs: set<Pair>, msn: string, ids: set<int>, action: string)
    ensures var (outcome, once) := Effect(pairs, msn, ids, action);
      Effect(once, msn, ids, action) == (outcome, once)
  {
    var once := Effect(pairs, msn, ids, action).1;
    if ids != {} && action == "add" {
      assert AddTags(once, msn, ids) == once;
    } else if ids != {} && action == "remove" {
      assert RemoveTags(once, msn, ids) == once;
    }
  }

  /** Removing rows that are not there is a no-op; adding rows that are
      already there is one too. */
  lemma AbsentRemoveNoop(pairs: set<Pair>, msn: string, ids: set<int>)
    requires forall t :: t in ids ==> (msn, t) !in pairs
    ensures RemoveTags(pairs, msn, ids) == pairs
  {
  }

  lemma PresentAddNoop(pairs: set<Pair>, msn: string, ids: set<int>)
    requires forall t :: t in ids ==> (msn, t) in pairs
    ensures AddTags(pairs, msn, ids) == pairs
  {
  }

  /** Add then remove leaves what remove alone leaves, and the other way round. */
  lemma AddRemoveCancel(pairs: set<Pair>, msn: string, ids: set<int>)
    ensures RemoveTags(AddTags(pairs, msn, ids), msn, ids) == RemoveTags(pairs, msn, ids)
    ensures AddTags(RemoveTags(pairs, msn, ids), msn, ids) == AddTags(pairs, msn, ids)
  {
  }

  /** Tagging with registry ids keeps the table's referential integrity. */
  lemma EffectKeepsRowsInRegistry(pairs: set<Pair>, msn: string, ids: set<int>, action: string, registry: set<int>)
    requires ids <= registry
    ensures RowsInRegistry(pairs, registry) ==> RowsInRegistry(Effect(pairs, msn, ids, action).1, registry)
  {
  }

  /** One more processed tag: one more row added, or one more row deleted. */
  lemma StepOneTag(pairs: set<Pair>, msn: string, done: set<int>, t: int)
    ensures AddTags(pairs, msn, done) + {(msn, t)} == AddTags(pairs, msn, done + {t})
    ensures RemoveTags(pairs, msn, done) - {(msn, t)} == RemoveTags(pairs, msn, done + {t})
  {
  }

  /** The tag registry and the MachineTag table, as the action sees them. */
  class Inventory {
    var tagIds: set<int>
    var machineTags: set<Pair>

    ghost predicate Valid()
      reads this
    {
      RowsInRegistry(machineTags, tagIds)
    }

    constructor (tagIds: set<int>, machineTags: set<Pair>)
      requires RowsInRegistry(machineTags, tagIds)
      ensures Valid()
      ensures this.tagIds == tagIds && this.machineTags == machineTags
    {
      this.tagIds := tagIds;
      this.machineTags := machineTags;
    }

    /** `MachineTag.objects.get_or_create(serial_number=serial, tag=tag)`. */
    method GetOrCreate(serial: string, tag: int) returns (created: bool)
      requires tag in tagIds  // the row refers to an existing Tag
      modifies this`machineTags
      ensures old(Valid()) ==> Valid()
      ensures machineTags == old(machineTags) + {(serial, tag)}
      ensures created <==> (serial, tag) !in old(machineTags)
    {
      created := (serial, tag) !in machineTags;
      if created {
        machineTags := machineTags + {(serial, tag)};
      }
    }

    /** `MachineTag.objects.filter(serial_number=serial, tag=tag).delete()`,
        returning the number of rows deleted. */
    method Delete(serial: string, tag: int) returns (deleted: nat)
      modifies this`machineTags
      ensures old(Valid()) ==> Valid()
      ensures machineTags == old(machineTags) - {(serial, tag)}
      ensures deleted == if (serial, tag) in old(machineTags) then 1 else 0
    {
      deleted := if (serial, tag) in machineTags then 1 else 0;
      machineTags := machineTags - {(serial, tag)};
    }

    /** `Action.trigger` for the machine with serial number `msn`. */
    method Trigger(msn: string, config: ActionConfig, payload: Payload) returns (outcome: Outcome)
      modifies this`machineTags
      ensures (outcome, machineTags)
           == Effect(old(machineTags), msn, GetTags(config, payload, tagIds).Ids(), config.action)
      ensures old(Valid()) ==> Valid()
    {
      var ids := GetTags(config, payload, tagIds).Ids();
      ResolvedWithinRegistry(SelectRaw(config, payload), tagIds);
      EffectKeepsRowsInRegistry(machineTags, msn, ids, config.action, tagIds);
      if ids == {} {
        return Completed;
      }
      var remaining := ids;
      while remaining != {}
        invariant remaining <= ids
        invariant config.action == "add" ==>
          machineTags == AddTags(old(machineTags), msn, ids - remaining)
        invariant config.action == "remove" ==>
          machineTags == RemoveTags(old(machineTags), msn, ids - remaining)
        invariant config.action != "add" && config.action != "remove" ==>
          remaining == ids && machineTags == old(machineTags)
        decreases remaining
      {
        var tag :| tag in remaining;
        ghost var done := ids - remaining;
        StepOneTag(old(machineTags), msn, done, tag);
        assert ids - (remaining - {tag}) == done + {tag};
        var action := config.action;
        if action == "add" {
          var created := GetOrCreate(msn, tag);
        } else if action == "remove" {
          var deleted := Delete(msn, tag);
        } else {
          return UnknownAction;
        }
        remaining := remaining - {tag};
      }
      assert ids - remaining == ids;
      outcome := Completed;
    }
  }

  /** The end-to-end case on the table: tags 1 and 2 are added to the
      machine, 999 is ignored. */
  method PayloadExampleTrigger(serial: string) returns (outcome: Outcome, rows: set<Pair>)
    ensures outcome == Completed && rows == {(serial, 1), (serial, 2)}
  {
    var inventory := new Inventory({1, 2}, {});
    var config := ActionConfig(None, Some("tag_ids"), "add");
    var payload := map["tag_ids" := RList([EInt(1), EInt(2), EInt(999)])];
    PayloadExample("add");
    outcome := inventory.Trigger(serial, config, payload);
    rows := inventory.machineTags;
  }
}
