/**
 * The application-wide context: a key/value object changed by a reducer that
 * resets on `null` and otherwise shallow-merges the update over the old value.
 */
module AppContext {
  import opened Options

  /** The context object; keys are property names. */
  type Ctx<V> = map<string, V>

  /** The empty object the reducer resets to. */
  function InitialState<V>(): (r: Ctx<V>)
  {
    map[]
  }

  /** `reducer(appCtx, newAppCtx)`: `None` stands for `null`, `Some(u)` for a non-null update object. */
  function Reduce<V>(ctx: Ctx<V>, update: Option<Ctx<V>>): (r: Ctx<V>)
    ensures update.None? ==> r == InitialState() && |r| == 0
    ensures update.Some? ==> r.Keys == ctx.Keys + update.value.Keys
    ensures update.Some? ==> forall k :: k in update.value ==> r[k] == update.value[k]
    ensures update.Some? ==> forall k :: k in ctx && k !in update.value ==> r[k] == ctx[k]
  {
    match update
    case None => InitialState()
    case Some(u) => ctx + u
  }

  /** Applying the same update twice gives what applying it once gives. */
  lemma ReduceIdempotent<V>(ctx: Ctx<V>, update: Option<Ctx<V>>)
    ensures Reduce(Reduce(ctx, update), update) == Reduce(ctx, update)
  {
  }

  /** Merging the empty object leaves the context as it was. */
  lemma ReduceEmptyUpdate<V>(ctx: Ctx<V>)
    ensures Reduce(ctx, Some(map[])) == ctx
  {
  }

  /** Two merges in turn equal one merge of the updates combined, the later one winning. */
  lemma ReduceTwice<V>(ctx: Ctx<V>, a: Ctx<V>, b: Ctx<V>)
    ensures Reduce(Reduce(ctx, Some(a)), Some(b)) == Reduce(ctx, Some(a + b))
  {
  }

  /** The context after dispatching `updates` in order. */
  function ReduceAll<V>(ctx: Ctx<V>, updates: seq<Option<Ctx<V>>>): (r: Ctx<V>)
    decreases |updates|
  {
    if updates == [] then ctx else ReduceAll(Reduce(ctx, updates[0]), updates[1..])
  }

  /** Dispatching `null` forgets everything dispatched before it. */
  lemma {:induction false} ResetForgetsHistory<V>(ctx: Ctx<V>, before: seq<Option<Ctx<V>>>, after: seq<Option<Ctx<V>>>)
    ensures ReduceAll(ctx, before + [None] + after) == ReduceAll(InitialState(), after)
    decreases |before|
  {
    if before == [] {
      assert before + [None] + after == [None] + after;
      assert ([None] + after)[1..] == after;
    } else {
      assert (before + [None] + after)[0] == before[0];
      assert (before + [None] + after)[1..] == before[1..] + [None] + after;
      ResetForgetsHistory(Reduce(ctx, before[0]), before[1..], after);
    }
  }

  /** Without `null`, no key is ever lost: the keys grow to include every key dispatched. */
  lemma {:induction false} MergesOnlyAddKeys<V>(ctx: Ctx<V>, updates: seq<Option<Ctx<V>>>)
    requires forall i :: 0 <= i < |updates| ==> updates[i].Some?
    ensures ctx.Keys <= ReduceAll(ctx, updates).Keys
    ensures forall i :: 0 <= i < |updates| ==> updates[i].value.Keys <= ReduceAll(ctx, updates).Keys
    decreases |updates|
  {
    if updates != [] {
      var next := Reduce(ctx, updates[0]);
      MergesOnlyAddKeys(next, updates[1..]);
      forall i | 0 <= i < |updates|
        ensures updates[i].value.Keys <= ReduceAll(ctx, updates).Keys
      {
        if i > 0 {
          assert updates[i] == updates[1..][i - 1];
        }
      }
    }
  }
}
