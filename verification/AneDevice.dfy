/** The ANE programs of a prefill. Each has one output buffer, which a run overwrites; a tensor built
    on the output reads it lazily, when it is evaluated and not when it is built. */
module AneDevice {
  import opened Wrappers

  /** `owner` is the program each read was taken from; `forced` are the values of the evaluated ones. */
  datatype Buffers<B> = Buffers(outputs: seq<B>, owner: seq<nat>, forced: map<nat, B>)

  ghost predicate Sane<B>(v: Buffers<B>) {
    && (forall id :: 0 <= id < |v.owner| ==> v.owner[id] < |v.outputs|)
    && (forall id :: id in v.forced ==> id < |v.owner|)
  }

  /** What a read yields if it is evaluated now. */
  ghost function ReadValue<B>(v: Buffers<B>, id: nat): B
    requires Sane(v) && id < |v.owner|
  {
    if id in v.forced then v.forced[id] else v.outputs[v.owner[id]]
  }

  /** Every read of program `p` has been evaluated. */
  ghost predicate NonePending<B>(v: Buffers<B>, p: nat) {
    forall id :: 0 <= id < |v.owner| && v.owner[id] == p ==> id in v.forced
  }

  /** No read of `v` has changed its value. */
  ghost predicate SameReads<B>(v: Buffers<B>, v': Buffers<B>)
    requires Sane(v) && Sane(v')
  {
    && |v.owner| <= |v'.owner|
    && forall id :: 0 <= id < |v.owner| ==> ReadValue(v', id) == ReadValue(v, id)
  }

  class Device<H, B> {
    var outputs: seq<B>
    var running: seq<bool>
    var staged: seq<Option<(nat, H)>>
    var owner: seq<nat>
    var forced: map<nat, B>

    function Now(): Buffers<B>
      reads this
    {
      Buffers(outputs, owner, forced)
    }

    ghost predicate Valid()
      reads this
    {
      |outputs| == |running| == |staged| && Sane(Now())
    }

    /** Write a program's inputs and start its run: until it is joined the output holds anything. */
    method Start(p: nat, layer: nat, x: H, noise: B)
      requires Valid() && p < |outputs| && !running[p]
      modifies this`outputs, this`running, this`staged
      ensures Valid() && outputs == old(outputs)[p := noise] && running == old(running)[p := true]
      ensures staged == old(staged)[p := Some((layer, x))]
      ensures old(NonePending(Now(), p)) ==> SameReads(old(Now()), Now())
      ensures SameReads(old(Now()), Now()) <==>
                forall id :: 0 <= id < |owner| && owner[id] == p && id !in forced ==> noise == old(outputs[p])
    {
      staged := staged[p := Some((layer, x))];
      running := running[p := true];
      outputs := outputs[p := noise];
      assert forall id :: 0 <= id < |owner| ==>
          (ReadValue(Now(), id) == ReadValue(old(Now()), id) <==>
            (owner[id] == p && id !in forced ==> noise == old(outputs[p])));
    }

    /** Join a run; one that failed leaves its output as it is. */
    method Join(p: nat, run: (nat, H) -> B, failed: bool)
      requires Valid() && p < |outputs| && running[p] && staged[p].Some?
      modifies this`outputs, this`running
      ensures Valid() && running == old(running)[p := false]
      ensures outputs == if failed then old(outputs) else old(outputs)[p := run(staged[p].value.0, staged[p].value.1)]
      ensures old(NonePending(Now(), p)) ==> SameReads(old(Now()), Now())
    {
      running := running[p := false];
      if !failed {
        outputs := outputs[p := run(staged[p].value.0, staged[p].value.1)];
      }
    }

    /** A lazy read of a program's output. */
    method Read(p: nat) returns (id: nat)
      requires Valid() && p < |outputs|
      modifies this`owner
      ensures Valid() && id == |old(owner)| && owner == old(owner) + [p]
      ensures SameReads(old(Now()), Now()) && ReadValue(Now(), id) == outputs[p]
    {
      id := |owner|;
      owner := owner + [p];
    }

    /** Evaluate a read. */
    method Eval(id: nat)
      requires Valid() && id < |owner|
      modifies this`forced
      ensures Valid() && SameReads(old(Now()), Now())
      ensures id in forced && forced.Keys == old(forced).Keys + {id}
    {
      if id !in forced {
        forced := forced[id := outputs[owner[id]]];
      }
    }
  }
}
