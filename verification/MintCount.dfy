/** Counting the blocks each validator mints in an epoch, and what the counts do to its weight. */
module MintCount {

  type Address = nat

  /** Block interval, blocks in a row and number of validators; all positive. */
  datatype Options = Options(blockInterval: int, blockRepeat: int, maxValidatorSize: int)

  predicate Positive(opt: Options) {
    opt.blockInterval > 0 && opt.blockRepeat > 0 && opt.maxValidatorSize > 0
  }

  function EpochInterval(opt: Options): (r: int)
    ensures Positive(opt) ==> r > 0
  {
    opt.blockInterval * opt.blockRepeat * opt.maxValidatorSize
  }

  /** Division that rounds towards zero. */
  function Quo(a: int, b: int): int
    requires b > 0
  {
    if a >= 0 then a / b else -(-a / b)
  }

  lemma {:induction false} QuoMonotone(a: int, c: int, b: int)
    requires b > 0 && a <= c
    ensures Quo(a, b) <= Quo(c, b)
  {
    if a >= 0 {
      DivMonotone(a, c, b);
    } else if c < 0 {
      DivMonotone(-c, -a, b);
    } else {
      DivMonotone(0, c, b);
      DivMonotone(0, -a, b);
    }
  }

  lemma {:induction false} DivMonotone(a: int, c: int, b: int)
    requires b > 0 && a <= c
    ensures a / b <= c / b
  {
    var x, y := a / b, c / b;
    assert b * x + a % b == a && b * y + c % b == c;
    assert b * (x - y) == b * x - b * y;
    LessThanOne(b, x - y);
  }

  lemma {:induction false} AtLeastOne(b: int, k: int)
    requires b > 0 && k >= 1
    ensures b * k >= b
  {
  }

  /** A multiple of b below b is not positive. */
  lemma {:induction false} LessThanOne(b: int, k: int)
    requires b > 0 && b * k < b
    ensures k <= 0
  {
    if k >= 1 {
      AtLeastOne(b, k);
    }
  }

  /** A block of a chain: who minted it and when. */
  datatype Minted = Minted(time: int, miner: Address)

  /** Counters by epoch and validator. */
  type Counts = map<(int, Address), nat>

  function Count(counts: Counts, epoch: int, v: Address): nat {
    if (epoch, v) in counts then counts[(epoch, v)] else 0
  }

  /** The counters after one more block: counting starts again when the epoch changes. */
  function UpdateMintCnt(counts: Counts, interval: int, parentTime: int, b: Minted): Counts
    requires interval > 0
  {
    var epoch := Quo(b.time, interval);
    var cnt := if Quo(parentTime, interval) == epoch then Count(counts, epoch, b.miner) + 1 else 1;
    counts[(epoch, b.miner) := cnt]
  }

  /** The counters after a chain of blocks on top of genesis. */
  function CountsOf(interval: int, genesisTime: int, chain: seq<Minted>): Counts
    requires interval > 0
  {
    if chain == [] then map[]
    else
      var front := chain[..|chain| - 1];
      UpdateMintCnt(CountsOf(interval, genesisTime, front), interval, TimeOfLast(genesisTime, front),
        chain[|chain| - 1])
  }

  function TimeOfLast(genesisTime: int, chain: seq<Minted>): int {
    if chain == [] then genesisTime else chain[|chain| - 1].time
  }

  /** How many blocks of the chain v minted in the epoch. */
  function TrueCount(interval: int, chain: seq<Minted>, epoch: int, v: Address): nat
    requires interval > 0
  {
    if chain == [] then 0
    else
      var b := chain[|chain| - 1];
      TrueCount(interval, chain[..|chain| - 1], epoch, v)
      + if Quo(b.time, interval) == epoch && b.miner == v then 1 else 0
  }

  /** Blocks do not go back in time. */
  ghost predicate Rising(genesisTime: int, chain: seq<Minted>) {
    && (forall i :: 0 <= i < |chain| ==> genesisTime <= chain[i].time)
    && (forall i, j :: 0 <= i < j < |chain| ==> chain[i].time <= chain[j].time)
  }

  /** Nothing has been minted in an epoch later than that of the last block. */
  lemma {:induction false} NothingYet(interval: int, chain: seq<Minted>, epoch: int, v: Address)
    requires interval > 0 && forall i :: 0 <= i < |chain| ==> Quo(chain[i].time, interval) < epoch
    ensures TrueCount(interval, chain, epoch, v) == 0
  {
    if chain != [] {
      NothingYet(interval, chain[..|chain| - 1], epoch, v);
    }
  }

  /** The counters are the true counts, on every chain that does not go back in time. */
  lemma {:induction false} CountersAreTrue(interval: int, genesisTime: int, chain: seq<Minted>, epoch: int, v: Address)
    requires interval > 0 && Rising(genesisTime, chain)
    ensures Count(CountsOf(interval, genesisTime, chain), epoch, v) == TrueCount(interval, chain, epoch, v)
  {
    if chain != [] {
      var b, front := chain[|chain| - 1], chain[..|chain| - 1];
      CountersAreTrue(interval, genesisTime, front, epoch, v);
      var here := Quo(b.time, interval);
      if here == epoch && v == b.miner && Quo(TimeOfLast(genesisTime, front), interval) != epoch {
        forall i | 0 <= i < |front|
          ensures Quo(front[i].time, interval) < epoch
        {
          QuoMonotone(front[i].time, TimeOfLast(genesisTime, front), interval);
          QuoMonotone(TimeOfLast(genesisTime, front), b.time, interval);
        }
        NothingYet(interval, front, epoch, v);
      }
    }
  }

  // ---- weights ----

  datatype Candidate = Candidate(weight: nat, degradeTime: int)

  /** Blocks below which a validator has been idle in an epoch of the given duration. */
  function Threshold(opt: Options, duration: int): int
    requires Positive(opt)
  {
    Quo(Quo(Quo(duration, opt.blockInterval), opt.maxValidatorSize), 2)
  }

  /** The first epoch may be cut short by a late first block. */
  function Duration(opt: Options, now: int, firstBlock: int): int {
    if now - firstBlock < EpochInterval(opt) then now - firstBlock else EpochInterval(opt)
  }

  /** In a full epoch that is half of the blocks a validator has in a row. */
  lemma {:induction false} FullEpochThreshold(opt: Options)
    requires Positive(opt)
    ensures Threshold(opt, EpochInterval(opt)) == opt.blockRepeat / 2
  {
    hide Quo;
    var perValidator := opt.maxValidatorSize * opt.blockRepeat;
    assert EpochInterval(opt) == opt.blockInterval * perValidator;
    assert perValidator > 0;
    hide EpochInterval;
    QuoOut(opt.blockInterval, perValidator);
    QuoOut(opt.maxValidatorSize, opt.blockRepeat);
    HalfOf(opt.blockRepeat);
  }

  lemma {:induction false} HalfOf(a: int)
    requires a > 0
    ensures Quo(a, 2) == a / 2
  {
  }

  lemma {:induction false} QuoOut(a: int, b: int)
    requires a > 0 && b > 0
    ensures Quo(a * b, a) == b
  {
    DivideOut(a, b);
    assert a * b > 0;
  }

  lemma {:induction false} DivideOut(a: int, b: int)
    requires a > 0
    ensures a * b / a == b
  {
    var q := a * b / a;
    assert a * q + a * b % a == a * b;
    assert a * (b - q) == a * b - a * q;
    assert a * (q - b) == a * q - a * b;
    LessThanOne(a, b - q);
    LessThanOne(a, q - b);
  }

  /** Idle validators lose weight, the others gain it back. */
  function Adjusted(c: Candidate, idle: bool, now: int): Candidate {
    if idle then (if c.weight > 10 then Candidate(c.weight - 10, now) else c)
    else if c.weight < 100 then Candidate(c.weight + 10, now) else c
  }

  datatype Outcome = Done | NoValidators | InvalidCandidate

  class DposContext {
    const opt: Options
    var counts: Counts
    var candidates: map<Address, Candidate>

    constructor (opt: Options, candidates: map<Address, Candidate>)
      ensures this.opt == opt && this.candidates == candidates && counts == map[]
    {
      this.opt, this.candidates, counts := opt, candidates, map[];
    }

    /** Counts a block for its miner. */
    method RecordMint(parentTime: int, time: int, validator: Address)
      requires Positive(opt)
      modifies this`counts
      ensures counts == UpdateMintCnt(old(counts), EpochInterval(opt), parentTime, Minted(time, validator))
    {
      var current, next := Quo(parentTime, EpochInterval(opt)), Quo(time, EpochInterval(opt));
      var cnt := 1;
      if current == next {
        if (current, validator) in counts {
          cnt := counts[(current, validator)] + 1;
        }
      }
      counts := counts[(next, validator) := cnt];
    }

    /** The weights of these validators, all of them candidates, are adjusted by their counts, and no others. */
    ghost predicate Adjusts(before: map<Address, Candidate>, after: map<Address, Candidate>, validators: seq<Address>,
                            now: int, firstBlock: int, epoch: int)
      requires Positive(opt)
      reads this`counts
    {
      && (forall v :: v in validators ==> v in before)
      && after == Reweighed(before, validators, counts, epoch, Threshold(opt, Duration(opt, now, firstBlock)), now)
    }

    /** Goes through the validators of an epoch and adjusts their weights by their counts, stopping
        at one that is not a candidate. */
    method KickoutValidators(validators: seq<Address>, now: int, firstBlock: int, epoch: int) returns (r: Outcome)
      requires Positive(opt) && Unique(validators)
      modifies this`candidates
      ensures r == NoValidators <==> validators == []
      ensures r == InvalidCandidate <==> exists v :: v in validators && v !in old(candidates)
      ensures r == NoValidators ==> candidates == old(candidates)
      ensures r == Done ==> Adjusts(old(candidates), candidates, validators, now, firstBlock, epoch)
      ensures r == InvalidCandidate ==>
                exists k :: 0 <= k < |validators| && validators[k] !in old(candidates)
                            && Adjusts(old(candidates), candidates, validators[..k], now, firstBlock, epoch)
    {
      if |validators| == 0 {
        return NoValidators;
      }
      var threshold := Threshold(opt, Duration(opt, now, firstBlock));
      var i := 0;
      while i < |validators|
        invariant 0 <= i <= |validators| && forall j :: 0 <= j < i ==> validators[j] in old(candidates)
        invariant candidates == Reweighed(old(candidates), validators[..i], counts, epoch, threshold, now)
      {
        var v := validators[i];
        var cnt := Count(counts, epoch, v);
        if v !in candidates {
          return InvalidCandidate;
        }
        assert validators[..i + 1] == validators[..i] + [v];
        candidates := candidates[v := Adjusted(candidates[v], cnt < threshold, now)];
        i := i + 1;
      }
      assert validators[..i] == validators;
      return Done;
    }
  }

  ghost predicate Unique(s: seq<Address>) {
    forall i, j :: 0 <= i < j < |s| ==> s[i] != s[j]
  }

  /** Every validator's weight adjusted by its own count; other candidates as they were. */
  function Reweighed(candidates: map<Address, Candidate>, validators: seq<Address>, counts: Counts, epoch: int,
                     threshold: int, now: int)
    : map<Address, Candidate>
  {
    map v | v in candidates ::
      if v in validators then Adjusted(candidates[v], Count(counts, epoch, v) < threshold, now) else candidates[v]
  }

  /** After a full epoch, on a chain that does not go back in time, a candidate loses weight exactly
      if it was a validator, has weight to lose and minted less than half of its blocks. */
  lemma {:induction false} OnlyIdleLoseWeight(opt: Options, genesisTime: int, chain: seq<Minted>,
                                              candidates: map<Address, Candidate>,
                           validators: seq<Address>, now: int, firstBlock: int, epoch: int, v: Address)
    requires Positive(opt) && Rising(genesisTime, chain) && v in candidates
    requires now - firstBlock >= EpochInterval(opt)
    ensures var counts := CountsOf(EpochInterval(opt), genesisTime, chain);
            var candidates' := Reweighed(candidates, validators, counts, epoch,
              Threshold(opt, Duration(opt, now, firstBlock)), now);
            candidates'[v].weight < candidates[v].weight <==>
            v in validators && candidates[v].weight > 10
              && TrueCount(EpochInterval(opt), chain, epoch, v) < opt.blockRepeat / 2
  {
    FullEpochThreshold(opt);
    CountersAreTrue(EpochInterval(opt), genesisTime, chain, epoch, v);
  }
}
