/** A control as the object it is, with one uninterrupted write at a time: `set` under its
    lock, the appliers' answers given. */
module ControlCells {
  import opened Wrappers
  import opened Controls
  import opened ControlOutcomes

  class RevAllocator {
    var counter: nat

    constructor ()
      ensures counter == 0
    {
      counter := 0;
    }

    method Next() returns (rev: nat)
      modifies this
      ensures rev == counter == old(counter) + 1
    {
      counter := counter + 1;
      rev := counter;
    }
  }

  class ControlCell<!T(==)> {
    const config: Config<T>
    const revs: RevAllocator
    var value: T
    var rev: nat
    var origin: Origin
    var appliers: nat
    var gauge: Option<Reading>

    predicate Valid()
      reads this, revs
    {
      rev <= revs.counter
    }

    constructor (config: Config<T>, revs: RevAllocator)
      ensures Valid() && this.config == config && this.revs == revs
      ensures value == config.initial && rev == 0 && origin == Launch && appliers == 0
      ensures gauge == config.Projection(config.initial)
    {
      this.config, this.revs := config, revs;
      value, rev, origin, appliers := config.initial, 0, Launch, 0;
      gauge := config.Projection(config.initial);
    }

    method RegisterApplier() returns (index: nat)
      requires Valid()
      modifies this`appliers
      ensures Valid() && index == old(appliers) && appliers == index + 1
    {
      index := appliers;
      appliers := appliers + 1;
    }

    /** `set`; `answers` says what each registered applier replies, a timeout being a refusal. */
    method Set(v: T, from: Origin, answers: seq<bool>) returns (r: Result<nat, SetError>)
      requires Valid() && |answers| == appliers
      modifies this`value, this`rev, this`origin, this`gauge, revs
      ensures Valid() && Promised(config, v, from, answers, r)
      ensures r == Failure(FinalViolation) <==> config.pinned && from != Launch
      ensures r == Failure(ValidationFailed) <==> !(config.pinned && from != Launch) && !config.Accepts(v)
      ensures r.Success? <==>
                !(config.pinned && from != Launch) && config.Accepts(v) && forall k :: 0 <= k < |answers| ==> answers[k]
      ensures r.Failure? && r.error.ApplyFailed? ==>
                forall k: nat :: k in r.error.failures <==> k < |answers| && !answers[k]
      ensures r.Failure? ==> unchanged(this) && unchanged(revs)
      ensures r.Success? ==> value == v && rev == r.value && origin == from && rev > old(rev) &&
                             revs.counter == rev && old(revs.counter) + 1 == rev
      ensures r.Success? ==> gauge == if config.Projection(v).Some? then config.Projection(v) else old(gauge)
    {
      if config.pinned && from != Launch {
        return Failure(FinalViolation);
      }
      if !config.Accepts(v) {
        return Failure(ValidationFailed);
      }
      var failures: seq<nat> := [];
      for k := 0 to |answers|
        invariant forall j: nat :: j in failures <==> j < k && !answers[j]
      {
        if !answers[k] {
          failures := failures + [k];
        }
      }
      if failures != [] {
        assert failures[0] in failures;
        return Failure(ApplyFailed(failures));
      }
      var next := revs.Next();
      value, rev, origin := v, next, from;
      var reading := config.Projection(v);
      if reading.Some? {
        gauge := reading;
      }
      r := Success(next);
    }
  }
}
