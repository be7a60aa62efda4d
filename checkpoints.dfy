/**
 * Resolution of the configured checkpoint names (`createCheckpoints`).
 *
 * The configured list is copied into a local array and each position is
 * overwritten, in order, with the local variable of that name (a PHP
 * "variable variable"). A name that is not a local set at that point throws
 * `InvalidArgumentException`. Only `activation` and `throttle` name
 * checkpoints; the other locals in scope are accepted too and resolve to
 * whatever they hold.
 */
module Checkpoints {
  import opened Wrappers
  import opened Objects

  /** `InvalidArgumentException` with its message. */
  datatype Error = InvalidArgument(message: string)

  function InvalidCheckpoint(name: string): Error {
    InvalidArgument("Invalid checkpoint [" + name + "] given.")
  }

  /** The locals of `createCheckpoints` that the loop does not change: the
      two parameters and the two checkpoints built before the loop. */
  datatype Locals = Locals(
    activations: ActivationRepository,
    ipAddress: Option<string>,
    activation: ActivationCheckpoint,
    throttle: ThrottleCheckpoint
  )

  /** The names that produce a checkpoint. */
  const CheckpointNames: set<string> := {"activation", "throttle"}

  /** The locals `isset` finds inside the loop: the parameters (the address
      only when it is not `null`), the array, the two checkpoints, and the
      loop's key and value. */
  function NamesInScope(ipAddress: Option<string>): set<string> {
    {"activations", "checkpoints", "activation", "throttle", "index", "checkpoint"}
      + (if ipAddress.Some? then {"ipAddress"} else {})
  }

  /** `$$name` inside the loop at position `index`, with the array currently
      holding `current`; `None` when `isset($$name)` is false. */
  function Lookup(name: string, locals: Locals, index: nat, current: seq<Value>): Option<Value> {
    if name == "activation" then Some(Activation(locals.activation))
    else if name == "throttle" then Some(Throttle(locals.throttle))
    else if name == "activations" then Some(Activations(locals.activations))
    else if name == "ipAddress" then
      (if locals.ipAddress.Some? then Some(Str(locals.ipAddress.value)) else None)
    else if name == "checkpoints" then Some(List(current))
    else if name == "index" then Some(Int(index))
    else if name == "checkpoint" then Some(Str(name))
    else None
  }

  /** `isset($$name)` holds exactly for the names in scope, and only
      `activation` and `throttle` denote checkpoints, each the single one
      built before the loop. */
  lemma LookupSpec(name: string, locals: Locals, index: nat, current: seq<Value>)
    ensures Lookup(name, locals, index, current).Some? <==> name in NamesInScope(locals.ipAddress)
    ensures (Lookup(name, locals, index, current).Some? && Lookup(name, locals, index, current).value.IsCheckpoint())
            <==> name in CheckpointNames
    ensures name == "activation" ==> Lookup(name, locals, index, current) == Some(Activation(locals.activation))
    ensures name == "throttle" ==> Lookup(name, locals, index, current) == Some(Throttle(locals.throttle))
  {
  }

  /** The configured list as PHP holds it before the loop: one string per name. */
  function Texts(names: seq<string>): (r: seq<Value>)
    ensures |r| == |names|
  {
    seq(|names|, i requires 0 <= i < |names| => Str(names[i]))
  }

  /** The loop from position `index` on, the array holding `current`. */
  function ResolveFrom(names: seq<string>, locals: Locals, index: nat, current: seq<Value>): Result<seq<Value>, Error>
    requires index <= |names| == |current|
    decreases |names| - index
  {
    if index == |names| then Ok(current)
    else match Lookup(names[index], locals, index, current)
      case None => Err(InvalidCheckpoint(names[index]))
      case Some(v) => ResolveFrom(names, locals, index + 1, current[index := v])
  }

  /** What `createCheckpoints` returns or throws for the configured `names`. */
  function Resolve(names: seq<string>, locals: Locals): Result<seq<Value>, Error> {
    ResolveFrom(names, locals, 0, Texts(names))
  }

  /** A successful run from `index` keeps the positions before `index` and
      replaces every later one by the local its name denotes at that step. */
  lemma {:induction false} ResolveFromOk(names: seq<string>, locals: Locals, index: nat, current: seq<Value>)
    requires index <= |names| == |current|
    requires current[index..] == Texts(names)[index..]
    requires ResolveFrom(names, locals, index, current).Ok?
    ensures var out := ResolveFrom(names, locals, index, current).value;
      |out| == |names| && out[..index] == current[..index] &&
      forall i :: index <= i < |names| ==> Lookup(names[i], locals, i, out[..i] + Texts(names)[i..]) == Some(out[i])
    decreases |names| - index
  {
    if index < |names| {
      var v := Lookup(names[index], locals, index, current).value;
      var next := current[index := v];
      assert next[index + 1..] == Texts(names)[index + 1..] by {
        assert next[index + 1..] == current[index + 1..];
        assert current[index + 1..] == current[index..][1..];
      }
      ResolveFromOk(names, locals, index + 1, next);
      var out := ResolveFrom(names, locals, index + 1, next).value;
      assert out[..index] == current[..index] by {
        assert out[..index] == out[..index + 1][..index];
      }
      assert out[index] == v by {
        assert out[index] == out[..index + 1][index];
      }
      assert current == out[..index] + Texts(names)[index..] by {
        assert current == current[..index] + current[index..];
      }
    }
  }

  /** Every name of `names[lo..hi]` is a local in scope. */
  predicate AllInScope(names: seq<string>, ipAddress: Option<string>, lo: int, hi: int)
    requires 0 <= lo && hi <= |names|
  {
    forall j :: lo <= j < hi ==> names[j] in NamesInScope(ipAddress)
  }

  /** A run from `index` succeeds exactly when every remaining name is in scope. */
  lemma {:induction false} ResolveFromSucceeds(names: seq<string>, locals: Locals, index: nat, current: seq<Value>)
    requires index <= |names| == |current|
    ensures ResolveFrom(names, locals, index, current).Ok? <==> AllInScope(names, locals.ipAddress, index, |names|)
    decreases |names| - index
  {
    if index < |names| {
      var v := Lookup(names[index], locals, index, current);
      LookupSpec(names[index], locals, index, current);
      if v.Some? {
        ResolveFromSucceeds(names, locals, index + 1, current[index := v.value]);
      }
    }
  }

  /** A failing run from `index` throws for the first remaining name that is
      not in scope. */
  lemma {:induction false} ResolveFromFails(names: seq<string>, locals: Locals, index: nat, current: seq<Value>)
    requires index <= |names| == |current|
    requires ResolveFrom(names, locals, index, current).Err?
    ensures exists k :: index <= k < |names| && names[k] !in NamesInScope(locals.ipAddress) &&
                        AllInScope(names, locals.ipAddress, index, k) &&
                        ResolveFrom(names, locals, index, current).error == InvalidCheckpoint(names[k])
    decreases |names| - index
  {
    var v := Lookup(names[index], locals, index, current);
    LookupSpec(names[index], locals, index, current);
    if v.None? {
      assert AllInScope(names, locals.ipAddress, index, index);
    } else {
      ResolveFromFails(names, locals, index + 1, current[index := v.value]);
      var k :| index + 1 <= k < |names| && names[k] !in NamesInScope(locals.ipAddress) &&
               AllInScope(names, locals.ipAddress, index + 1, k) &&
               ResolveFrom(names, locals, index + 1, current[index := v.value]).error == InvalidCheckpoint(names[k]);
      assert AllInScope(names, locals.ipAddress, index, k);
    }
  }

  /** The result has one entry per configured name, each position replaced in
      order by the local of that name, the array read by `checkpoints`
      holding the entries already replaced followed by the names not yet
      reached. */
  lemma ResolvePositions(names: seq<string>, locals: Locals)
    requires Resolve(names, locals).Ok?
    ensures var out := Resolve(names, locals).value;
      |out| == |names| &&
      forall i :: 0 <= i < |names| ==> Lookup(names[i], locals, i, out[..i] + Texts(names)[i..]) == Some(out[i])
  {
    ResolveFromOk(names, locals, 0, Texts(names));
  }

  /** Resolution succeeds exactly when every configured name is a local in
      scope. */
  lemma ResolveOutcome(names: seq<string>, locals: Locals)
    ensures Resolve(names, locals).Ok? <==>
      forall i :: 0 <= i < |names| ==> names[i] in NamesInScope(locals.ipAddress)
  {
    ResolveFromSucceeds(names, locals, 0, Texts(names));
  }

  /** A failed resolution throws `InvalidArgumentException` for the first
      configured name that is not a local in scope, and returns no list. */
  lemma ResolveFirstInvalid(names: seq<string>, locals: Locals)
    requires Resolve(names, locals).Err?
    ensures exists k :: 0 <= k < |names| && names[k] !in NamesInScope(locals.ipAddress) &&
                        (forall j :: 0 <= j < k ==> names[j] in NamesInScope(locals.ipAddress)) &&
                        Resolve(names, locals).error == InvalidCheckpoint(names[k])
  {
    ResolveFromFails(names, locals, 0, Texts(names));
  }

  /** Every `activation` entry is the one activation checkpoint built before
      the loop, every `throttle` entry the one throttle checkpoint, so
      duplicates share an instance; no other name yields a checkpoint. */
  lemma ResolveSharesCheckpoints(names: seq<string>, locals: Locals)
    requires Resolve(names, locals).Ok?
    ensures var out := Resolve(names, locals).value;
      |out| == |names| &&
      (forall i :: 0 <= i < |names| && names[i] == "activation" ==> out[i] == Activation(locals.activation)) &&
      (forall i :: 0 <= i < |names| && names[i] == "throttle" ==> out[i] == Throttle(locals.throttle)) &&
      (forall i :: 0 <= i < |names| ==> (out[i].IsCheckpoint() <==> names[i] in CheckpointNames))
  {
    ResolvePositions(names, locals);
    var out := Resolve(names, locals).value;
    forall i | 0 <= i < |names| {
      LookupSpec(names[i], locals, i, out[..i] + Texts(names)[i..]);
    }
  }

  /** A list naming only `activation` and `throttle` resolves to checkpoints
      alone. */
  lemma ResolveCheckpointNames(names: seq<string>, locals: Locals)
    requires forall i :: 0 <= i < |names| ==> names[i] in CheckpointNames
    ensures Resolve(names, locals).Ok? && |Resolve(names, locals).value| == |names|
    ensures forall i :: 0 <= i < |names| ==> Resolve(names, locals).value[i].IsCheckpoint()
  {
    ResolveOutcome(names, locals);
    ResolveSharesCheckpoints(names, locals);
  }

  /** The loop of `createCheckpoints`: overwrite each position of a copy of
      the configured list with the local of that name, throwing on the first
      name that is not set. */
  method ResolveCheckpoints(names: seq<string>, locals: Locals) returns (r: Result<seq<Value>, Error>)
    ensures r == Resolve(names, locals)
  {
    var checkpoints := Texts(names);
    var index := 0;
    while index < |names|
      invariant index <= |names| == |checkpoints|
      invariant ResolveFrom(names, locals, index, checkpoints) == Resolve(names, locals)
    {
      var checkpoint := names[index];
      var value := Lookup(checkpoint, locals, index, checkpoints);
      if value.None? {
        return Err(InvalidCheckpoint(checkpoint));
      }
      checkpoints := checkpoints[index := value.value];
      index := index + 1;
    }
    return Ok(checkpoints);
  }
}
