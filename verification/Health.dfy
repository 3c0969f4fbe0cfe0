/** The probe reconciler, `HealthProbes::sync` in `src/health.rs`. */
module Health {
  import opened Wrappers

  /** A probe spec: its id, and its JSON form if it can be serialised. */
  datatype Spec = Spec(id: string, json: Option<string>)

  /** What the map keeps per id: the signature it was started for, and the handle of the spawned task. */
  datatype Entry = Entry(signature: string, handle: nat)

  /** `live`: spawned and not aborted. Handles are numbered in the order they are spawned. */
  datatype State = State(tasks: map<string, Entry>, live: set<nat>, spawned: nat)

  function Spawn(s: State, id: string, signature: string): State {
    State(s.tasks[id := Entry(signature, s.spawned)], s.live + {s.spawned}, s.spawned + 1)
  }

  function Drop(s: State, id: string): State {
    if id in s.tasks then s.(tasks := s.tasks - {id}, live := s.live - {s.tasks[id].handle}) else s
  }

  /** One spec of a request. */
  function Apply(s: State, p: Spec): State {
    match p.json
    case None => s
    case Some(signature) =>
      if p.id in s.tasks && s.tasks[p.id].signature == signature then s
      else Spawn(Drop(s, p.id), p.id, signature)
  }

  function ApplyAll(s: State, probes: seq<Spec>): State {
    if probes == [] then s else Apply(ApplyAll(s, probes[..|probes| - 1]), probes[|probes| - 1])
  }

  function Kept(probes: seq<Spec>): set<string> {
    set p <- probes | p.json.Some? :: p.id
  }

  function DropAll(s: State, stale: set<string>): State {
    s.(tasks := s.tasks - stale,
       live := s.live - set id <- s.tasks.Keys | id in stale :: s.tasks[id].handle)
  }

  /** The whole of `sync`. */
  function Synced(s: State, probes: seq<Spec>): State {
    var applied := ApplyAll(s, probes);
    DropAll(applied, applied.tasks.Keys - Kept(probes))
  }

  /** Live tasks are exactly the handles in the map, each under one id: none leaked, none lost. */
  ghost predicate Inv(s: State) {
    && s.live == (set id <- s.tasks :: s.tasks[id].handle)
    && (forall id, other | id in s.tasks && other in s.tasks && id != other :: s.tasks[id].handle != s.tasks[other].handle)
    && (forall id <- s.tasks :: s.tasks[id].handle < s.spawned)
  }

  class HealthProbes {
    var tasks: map<string, Entry>
    var live: set<nat>
    var spawned: nat

    ghost function View(): State
      reads this
    {
      State(tasks, live, spawned)
    }

    constructor ()
      ensures View() == State(map[], {}, 0) && Inv(View())
    {
      tasks, live, spawned := map[], {}, 0;
    }

    method Abort(handle: nat)
      modifies this`live
      ensures live == old(live) - {handle}
    {
      live := live - {handle};
    }

    method SpawnTask() returns (handle: nat)
      modifies this`live, this`spawned
      ensures handle == old(spawned) && spawned == old(spawned) + 1 && live == old(live) + {handle}
    {
      handle := spawned;
      spawned := spawned + 1;
      live := live + {handle};
    }

    /** The body of the first loop, for a spec that serialised. */
    method Reconcile(p: Spec)
      requires p.json.Some?
      modifies this
      ensures View() == Apply(old(View()), p)
    {
      if p.id in tasks {
        if tasks[p.id].signature == p.json.value {
          return;
        }
        var h := tasks[p.id].handle;
        tasks := tasks - {p.id};
        Abort(h);
      }
      var handle := SpawnTask();
      tasks := tasks[p.id := Entry(p.json.value, handle)];
    }

    /** One turn of the second loop. */
    method RemoveOne(ghost before: State, ghost removed: set<string>, id: string)
      requires View() == DropAll(before, removed) && id in before.tasks && id !in removed
      modifies this
      ensures View() == DropAll(before, removed + {id})
    {
      DropOneMore(before, removed, id);
      var h := tasks[id].handle;
      tasks := tasks - {id};
      Abort(h);
    }

    /** The second loop: abort every task whose id is not kept. */
    method AbortStale(keep: set<string>)
      modifies this
      ensures View() == DropAll(old(View()), old(tasks).Keys - keep)
    {
      ghost var before := View();
      var stale := tasks.Keys - keep;
      var dropped: set<string> := {};
      DropNothing(before);
      while stale - dropped != {}
        invariant dropped <= stale
        invariant View() == DropAll(before, dropped)
        decreases |stale - dropped|
      {
        var id :| id in stale - dropped;
        RemoveOne(before, dropped, id);
        assert stale - (dropped + {id}) < stale - dropped;
        dropped := dropped + {id};
      }
      assert dropped == stale;
    }

    method Sync(probes: seq<Spec>)
      requires Inv(View())
      modifies this
      ensures View() == Synced(old(View()), probes)
      ensures Inv(View()) && tasks.Keys == Kept(probes)
    {
      var keep: set<string> := {};
      for i := 0 to |probes|
        invariant View() == ApplyAll(old(View()), probes[..i])
        invariant keep == Kept(probes[..i])
      {
        var p := probes[i];
        assert probes[..i + 1][..i] == probes[..i];
        assert probes[..i + 1] == probes[..i] + [p];
        KeptSnoc(probes[..i], p);
        if p.json.Some? {
          keep := keep + {p.id};
          Reconcile(p);
        }
      }
      assert probes[..|probes|] == probes;
      AbortStale(keep);
      SyncKeepsInv(old(View()), probes);
    }
  }

  lemma KeptSnoc(probes: seq<Spec>, p: Spec)
    ensures Kept(probes + [p]) == if p.json.Some? then Kept(probes) + {p.id} else Kept(probes)
  {
    assert forall q :: q in probes + [p] <==> q in probes || q == p;
  }

  lemma DropNothing(s: State)
    ensures DropAll(s, {}) == s
  {
    assert s.tasks - {} == s.tasks;
  }

  lemma DropOneMore(s: State, removed: set<string>, id: string)
    requires id in s.tasks && id !in removed
    ensures DropAll(s, removed + {id})
            == DropAll(s, removed).(tasks := DropAll(s, removed).tasks - {id},
                                    live := DropAll(s, removed).live - {s.tasks[id].handle})
  {
  }

  lemma DropAllKeepsInv(s: State, stale: set<string>)
    requires Inv(s)
    ensures Inv(DropAll(s, stale))
  {
    var t := DropAll(s, stale);
    forall h ensures h in t.live <==> h in (set id <- t.tasks :: t.tasks[id].handle) {
      if h in t.live {
        var id :| id in s.tasks && s.tasks[id].handle == h;
        assert id in t.tasks;
      }
    }
  }

  lemma DropKeepsInv(s: State, id: string)
    requires Inv(s)
    ensures Inv(Drop(s, id))
  {
    if id in s.tasks {
      assert Drop(s, id) == DropAll(s, {id});
      DropAllKeepsInv(s, {id});
    }
  }

  lemma ApplyKeepsInv(s: State, p: Spec)
    requires Inv(s)
    ensures Inv(Apply(s, p))
  {
    if p.json.Some? && !(p.id in s.tasks && s.tasks[p.id].signature == p.json.value) {
      var d, t := Drop(s, p.id), Apply(s, p);
      DropKeepsInv(s, p.id);
      assert forall h :: h in t.live <==> h == s.spawned || (exists id <- d.tasks :: id != p.id && d.tasks[id].handle == h);
      assert forall id <- d.tasks :: id != p.id && t.tasks[id] == d.tasks[id];
      assert t.tasks[p.id].handle == s.spawned;
    }
  }

  lemma {:induction false} ApplyAllKeepsInv(s: State, probes: seq<Spec>)
    requires Inv(s)
    ensures Inv(ApplyAll(s, probes))
    ensures s.tasks.Keys <= ApplyAll(s, probes).tasks.Keys
    ensures s.spawned <= ApplyAll(s, probes).spawned
  {
    if probes == [] {
    } else {
      ApplyAllKeepsInv(s, probes[..|probes| - 1]);
      ApplyKeepsInv(ApplyAll(s, probes[..|probes| - 1]), probes[|probes| - 1]);
    }
  }

  /** The signature of the last serialisable spec for an id. */
  function LastSignature(probes: seq<Spec>, id: string): Option<string> {
    if probes == [] then None
    else
      var p := probes[|probes| - 1];
      if p.id == id && p.json.Some? then p.json else LastSignature(probes[..|probes| - 1], id)
  }

  /** Every serialisable spec of the request for this id has this signature. */
  ghost predicate AlwaysSigned(probes: seq<Spec>, id: string, signature: string) {
    forall p <- probes :: p.id == id && p.json.Some? ==> p.json.value == signature
  }

  /**
   * What the specs of a request do to one id: its signature becomes that of its
   * last serialisable spec, and it keeps its task exactly when all of them carry
   * the signature the task was started for.
   */
  lemma {:induction false} ApplyAllOnId(s: State, probes: seq<Spec>, id: string)
    requires Inv(s)
    ensures var t := ApplyAll(s, probes);
            && (id in t.tasks <==> id in s.tasks || id in Kept(probes))
            && (id in Kept(probes) <==> LastSignature(probes, id).Some?)
            && (id in Kept(probes) ==> id in t.tasks && Some(t.tasks[id].signature) == LastSignature(probes, id))
            && (id !in Kept(probes) && id in s.tasks ==> t.tasks[id] == s.tasks[id])
            && (id in s.tasks && AlwaysSigned(probes, id, s.tasks[id].signature) ==> t.tasks[id] == s.tasks[id])
            && (id in t.tasks && !(id in s.tasks && AlwaysSigned(probes, id, s.tasks[id].signature)) ==>
                  t.tasks[id].handle >= s.spawned)
  {
    if probes == [] {
    } else {
      var front, p := probes[..|probes| - 1], probes[|probes| - 1];
      ApplyAllOnId(s, front, id);
      ApplyAllKeepsInv(s, front);
      KeptSnoc(front, p);
      assert probes == front + [p];
      assert forall q :: q in probes <==> q in front || q == p;
      SignedSnoc(front, p, id);
      var t := ApplyAll(s, front);
      if p.id == id && p.json.Some? {
        SignedFront(s, front, p, id);
      } else {
        assert id in Apply(t, p).tasks <==> id in t.tasks;
        assert id in t.tasks ==> Apply(t, p).tasks[id] == t.tasks[id];
      }
    }
  }

  lemma SignedSnoc(front: seq<Spec>, p: Spec, id: string)
    ensures forall signature :: AlwaysSigned(front + [p], id, signature)
              <==> AlwaysSigned(front, id, signature) && (p.id == id && p.json.Some? ==> p.json.value == signature)
  {
    assert forall q :: q in front + [p] <==> q in front || q == p;
  }

  /** If all earlier specs agreed with the running task, its signature is still the one in the map. */
  lemma SignedFront(s: State, front: seq<Spec>, p: Spec, id: string)
    requires p.id == id && p.json.Some?
    requires id in Kept(front) ==> LastSignature(front, id).Some?
    ensures LastSignature(front + [p], id) == p.json
  {
    assert (front + [p])[..|front|] == front;
  }

  lemma SyncKeepsInv(s: State, probes: seq<Spec>)
    requires Inv(s)
    ensures Inv(Synced(s, probes)) && Synced(s, probes).tasks.Keys == Kept(probes)
  {
    var applied := ApplyAll(s, probes);
    ApplyAllKeepsInv(s, probes);
    DropAllKeepsInv(applied, applied.tasks.Keys - Kept(probes));
    forall id ensures id in Kept(probes) ==> id in applied.tasks { ApplyAllOnId(s, probes, id); }
  }

  function SyncAll(s: State, requests: seq<seq<Spec>>): State {
    if requests == [] then s else Synced(SyncAll(s, requests[..|requests| - 1]), requests[|requests| - 1])
  }

  const INITIAL := State(map[], {}, 0)

  lemma {:induction false} SyncAllKeepsInv(requests: seq<seq<Spec>>)
    ensures Inv(SyncAll(INITIAL, requests))
  {
    if requests == [] {
    } else {
      SyncAllKeepsInv(requests[..|requests| - 1]);
      SyncKeepsInv(SyncAll(INITIAL, requests[..|requests| - 1]), requests[|requests| - 1]);
    }
  }

  /**
   * After every call of any sequence of `sync` calls: the live tasks are exactly
   * the handles in the map, the ids are exactly those of the last request's
   * serialisable specs, and each signature is that of the id's last such spec.
   */
  lemma RunningSetMatchesLastRequest(requests: seq<seq<Spec>>, last: seq<Spec>)
    ensures var t := SyncAll(INITIAL, requests + [last]);
            && t.live == (set id <- t.tasks :: t.tasks[id].handle)
            && t.tasks.Keys == Kept(last)
            && forall id <- t.tasks :: Some(t.tasks[id].signature) == LastSignature(last, id)
  {
    var s := SyncAll(INITIAL, requests);
    assert (requests + [last])[..|requests|] == requests;
    SyncAllKeepsInv(requests);
    SyncKeepsInv(s, last);
    var t := Synced(s, last);
    forall id <- t.tasks ensures Some(t.tasks[id].signature) == LastSignature(last, id) {
      ApplyAllOnId(s, last, id);
    }
  }

  /**
   * A probe keeps its original task if and only if it was running and every
   * serialisable spec of the request for its id is the one it runs; otherwise its
   * task is one spawned by this call.
   */
  lemma TaskKeptIff(requests: seq<seq<Spec>>, last: seq<Spec>, id: string)
    requires id in Kept(last)
    ensures var s := SyncAll(INITIAL, requests);
            var t := SyncAll(INITIAL, requests + [last]);
            && id in t.tasks
            && (id in s.tasks && AlwaysSigned(last, id, s.tasks[id].signature) ==> t.tasks[id] == s.tasks[id])
            && (!(id in s.tasks && AlwaysSigned(last, id, s.tasks[id].signature)) ==>
                  t.tasks[id].handle >= s.spawned && t.tasks[id].handle !in s.live)
  {
    var s := SyncAll(INITIAL, requests);
    assert (requests + [last])[..|requests|] == requests;
    SyncAllKeepsInv(requests);
    SyncKeepsInv(s, last);
    ApplyAllOnId(s, last, id);
  }
}
