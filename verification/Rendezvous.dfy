/** Rendezvous hashing: every live backend scores the key, and the first best score wins. */
module Rendezvous {
  import opened Net
  import opened Backends
  import Fnv

  /** Scores are ordered; a hash of zero or a weight that is not positive scores below everything else. */
  datatype Score = NegInf | Fin(value: real)

  predicate Less(a: Score, b: Score) {
    b.Fin? && (a.Fin? ==> a.value < b.value)
  }

  /** Both the hash and the curve that turns a non-zero hash and a weight into a score stay uninterpreted. */
  datatype Pool = Pool(backends: seq<Backend>, hash: seq<Byte> -> nat, curve: (nat, real) -> real)
  {
    function HashWithBackend(key: seq<Byte>, b: nat): nat
      requires b < |backends|
    {
      hash(key + backends[b].address)
    }

    function WeightedHash(h: nat, weight: real): Score {
      if h == 0 || weight <= 0.0 then NegInf else Fin(curve(h, weight))
    }

    function ScoreOf(key: seq<Byte>, b: nat): Score
      requires b < |backends|
    {
      WeightedHash(HashWithBackend(key, b), backends[b].weight)
    }
  }

  /** The best score among the first n backends and who has it first. */
  function Best(pool: Pool, flags: seq<bool>, key: seq<Byte>, n: nat): (r: (Option<nat>, Score))
    requires |flags| == |pool.backends| && n <= |flags|
    ensures r.0.Some? ==> r.0.value < n
  {
    if n == 0 then (None, NegInf)
    else
      var r := Best(pool, flags, key, n - 1);
      if flags[n - 1] && Less(r.1, pool.ScoreOf(key, n - 1)) then (Some(n - 1), pool.ScoreOf(key, n - 1)) else r
  }

  function Choose(pool: Pool, flags: seq<bool>, key: seq<Byte>): (r: Option<nat>)
    requires |flags| == |pool.backends|
    ensures r.Some? ==> r.value < |flags|
  {
    Best(pool, flags, key, |flags|).0
  }

  method Next(pool: Pool, flags: seq<bool>, key: seq<Byte>) returns (r: Option<nat>)
    requires |flags| == |pool.backends|
    ensures r == Choose(pool, flags, key)
  {
    if pool.backends == [] {
      return None;
    }
    var bestScore := NegInf;
    r := None;
    for b := 0 to |pool.backends|
      invariant (r, bestScore) == Best(pool, flags, key, b)
    {
      if !flags[b] {
        continue;
      }
      var score := pool.ScoreOf(key, b);
      if Less(bestScore, score) {
        bestScore := score;
        r := Some(b);
      }
    }
  }

  /** Backend b wins: up, with a finite score that nobody beats and nobody before it reaches. */
  ghost predicate Wins(pool: Pool, flags: seq<bool>, key: seq<Byte>, b: nat, n: nat)
    requires |flags| == |pool.backends| && n <= |flags|
  {
    && b < n && flags[b] && pool.ScoreOf(key, b).Fin?
    && (forall c :: 0 <= c < n && flags[c] ==> !Less(pool.ScoreOf(key, b), pool.ScoreOf(key, c)))
    && (forall c :: 0 <= c < b && flags[c] ==> Less(pool.ScoreOf(key, c), pool.ScoreOf(key, b)))
  }

  lemma {:induction false} BestWins(pool: Pool, flags: seq<bool>, key: seq<Byte>, n: nat)
    requires |flags| == |pool.backends| && n <= |flags|
    ensures var r := Best(pool, flags, key, n);
      && (r.0.Some? ==> Wins(pool, flags, key, r.0.value, n) && r.1 == pool.ScoreOf(key, r.0.value))
      && (r.0.None? ==> r.1 == NegInf && forall c :: 0 <= c < n && flags[c] ==> pool.ScoreOf(key, c) == NegInf)
  {
    if n > 0 {
      BestWins(pool, flags, key, n - 1);
    }
  }

  /**
    The choice is the one winner, and there is none exactly when no live backend has a finite score; live, that is, by
    the flags as the scan read them.
   */
  lemma ChoiceExact(pool: Pool, flags: seq<bool>, key: seq<Byte>)
    requires |flags| == |pool.backends|
    ensures forall b: nat :: Choose(pool, flags, key) == Some(b) <==> Wins(pool, flags, key, b, |flags|)
    ensures Choose(pool, flags, key).Some? <==>
      exists b :: 0 <= b < |flags| && flags[b] && pool.HashWithBackend(key, b) != 0 && pool.backends[b].weight > 0.0
  {
    BestWins(pool, flags, key, |flags|);
    var r := Choose(pool, flags, key);
    forall b: nat | Wins(pool, flags, key, b, |flags|)
      ensures r == Some(b)
    {
      assert pool.ScoreOf(key, b).Fin?;
    }
    if r.Some? {
      assert pool.ScoreOf(key, r.value).Fin?;
      assert flags[r.value];
    }
    forall b | 0 <= b < |flags| && flags[b] && pool.HashWithBackend(key, b) != 0 && pool.backends[b].weight > 0.0
      ensures r.Some?
    {
      assert pool.ScoreOf(key, b).Fin?;
    }
  }

  /** Backend c is up, its hash for the key is not zero and its weight is positive. */
  ghost predicate Eligible(pool: Pool, flags: seq<bool>, key: seq<Byte>, c: nat)
    requires |flags| == |pool.backends| && c < |flags|
  {
    flags[c] && pool.hash(key + pool.backends[c].address) != 0 && pool.backends[c].weight > 0.0
  }

  ghost function ValueOf(pool: Pool, key: seq<Byte>, c: nat): real
    requires c < |pool.backends|
  {
    pool.curve(pool.hash(key + pool.backends[c].address), pool.backends[c].weight)
  }

  /**
    The choice in numbers: backend b is chosen if and only if it is eligible and no eligible backend has a higher
    value, nor one before it the same.
   */
  lemma HighestValueWins(pool: Pool, flags: seq<bool>, key: seq<Byte>, b: nat)
    requires |flags| == |pool.backends|
    ensures Choose(pool, flags, key) == Some(b) <==>
      && b < |flags| && Eligible(pool, flags, key, b)
      && (forall c :: 0 <= c < |flags| && Eligible(pool, flags, key, c) ==>
            ValueOf(pool, key, c) <= ValueOf(pool, key, b))
      && (forall c :: 0 <= c < b && Eligible(pool, flags, key, c) ==>
            ValueOf(pool, key, c) < ValueOf(pool, key, b))
  {
    hide Choose;
    ChoiceExact(pool, flags, key);
    assert forall c :: 0 <= c < |flags| ==>
      (Eligible(pool, flags, key, c) <==> flags[c] && pool.ScoreOf(key, c).Fin?);
    assert forall c :: 0 <= c < |flags| && pool.ScoreOf(key, c).Fin? ==>
      pool.ScoreOf(key, c).value == ValueOf(pool, key, c);
    hide Pool.ScoreOf, ValueOf;
    if b < |flags| && Eligible(pool, flags, key, b) {
      WinsUnbeaten(pool, flags, key, b);
    }
  }

  /**
    A single live backend is not chosen when its hash for the key is zero, as happens with the program's own hash
    for the key of client 2001:db8:1321:252d:357c:7102:2dd:1226 and backend 10.0.0.5:53.
   */
  lemma ZeroHashNeverWins(weight: real, curve: (nat, real) -> real)
    requires weight > 0.0
    ensures Choose(Lone(weight, curve), [true], Fnv.UnservedClient()) == None
  {
    hide Fnv.Fnv1a, Fnv.UnservedClient, Fnv.Second;
    Fnv.UnservedHash();
    ChoiceExact(Lone(weight, curve), [true], Fnv.UnservedClient());
  }

  /** The pool of the one backend 10.0.0.5:53. */
  function Lone(weight: real, curve: (nat, real) -> real): Pool {
    Pool([Backend(Fnv.Second(), weight)], key => Fnv.Fnv1a(key), curve)
  }

  /** A backend is as its last flip left it, and as it was when no flip concerned it. */
  lemma {:induction false} FlippedExact(flags: seq<bool>, flips: seq<Flip>, b: nat, k: nat)
    requires b < |flags| && k <= |flips|
    requires forall j :: k <= j < |flips| ==> flips[j].backend != b
    ensures k == 0 ==> Flipped(flags, flips)[b] == flags[b]
    ensures k > 0 && flips[k - 1].backend == b ==> Flipped(flags, flips)[b] == flips[k - 1].up
  {
    if k < |flips| {
      FlippedExact(flags, flips[..|flips| - 1], b, k);
    }
  }

  /** For this key c is preferred to b: a higher score, or the same score and an earlier place. */
  predicate Beats(pool: Pool, key: seq<Byte>, c: nat, b: nat)
    requires c < |pool.backends| && b < |pool.backends|
  {
    || Less(pool.ScoreOf(key, b), pool.ScoreOf(key, c))
    || (c < b && !Less(pool.ScoreOf(key, c), pool.ScoreOf(key, b)))
  }

  /** The winner is the live backend with a finite score that no live backend beats. */
  lemma WinsUnbeaten(pool: Pool, flags: seq<bool>, key: seq<Byte>, b: nat)
    requires |flags| == |pool.backends| && b < |flags|
    ensures Wins(pool, flags, key, b, |flags|) <==>
      && flags[b] && pool.ScoreOf(key, b).Fin?
      && (forall c :: 0 <= c < |flags| && flags[c] ==> !Beats(pool, key, c, b))
  {
    hide Pool.ScoreOf;
    if forall c :: 0 <= c < |flags| && flags[c] ==> !Beats(pool, key, c, b) {
      forall c | 0 <= c < |flags| && flags[c]
        ensures !Less(pool.ScoreOf(key, b), pool.ScoreOf(key, c))
        ensures c < b ==> Less(pool.ScoreOf(key, c), pool.ScoreOf(key, b))
      {
        assert !Beats(pool, key, c, b);
      }
    }
  }

  /** The flags as a scan reads them: each backend's at a moment of its own. */
  function AsRead(history: seq<seq<bool>>, moments: seq<nat>): (flags: seq<bool>)
    requires forall b :: 0 <= b < |moments| ==> moments[b] < |history| && b < |history[moments[b]]|
    ensures |flags| == |moments|
  {
    seq(|moments|, b requires 0 <= b < |moments| => history[moments[b]][b])
  }

  /** Backend b was up when the scan read its flag, and has a finite score. */
  ghost predicate Candidate(pool: Pool, history: seq<seq<bool>>, moments: seq<nat>, key: seq<Byte>, b: nat)
    requires Scan(pool, history, moments) && b < |moments|
  {
    history[moments[b]][b] && pool.ScoreOf(key, b).Fin?
  }

  /** Every flag is read at a moment of the history. */
  ghost predicate Scan(pool: Pool, history: seq<seq<bool>>, moments: seq<nat>) {
    && |moments| == |pool.backends|
    && forall c :: 0 <= c < |moments| ==> moments[c] < |history| && c < |history[moments[c]]|
  }

  /**
    Scans while the flags change, exactly: the scan answers b if and only if b was up when its own flag was read, has a
    finite score, and nobody beats it who was up when his was read and has a finite score.
   */
  lemma ScanExact(pool: Pool, history: seq<seq<bool>>, moments: seq<nat>, key: seq<Byte>, b: nat)
    requires Scan(pool, history, moments)
    ensures Choose(pool, AsRead(history, moments), key) == Some(b) <==>
      && b < |moments| && Candidate(pool, history, moments, key, b)
      && (forall c :: 0 <= c < |moments| && Candidate(pool, history, moments, key, c) ==> !Beats(pool, key, c, b))
  {
    hide Choose, Pool.ScoreOf, Wins;
    var flags := AsRead(history, moments);
    ChoiceExact(pool, flags, key);
    if b < |moments| { WinsUnbeaten(pool, flags, key, b); }
  }

  /**
    A scan finds somebody if and only if somebody with a finite score was up when his own flag was read; one who stays
    up throughout is enough.
   */
  lemma ScanFinds(pool: Pool, history: seq<seq<bool>>, moments: seq<nat>, key: seq<Byte>)
    requires Scan(pool, history, moments)
    ensures Choose(pool, AsRead(history, moments), key).Some? <==>
      exists b :: 0 <= b < |moments| && Candidate(pool, history, moments, key, b)
    ensures forall b :: 0 <= b < |moments| && pool.ScoreOf(key, b).Fin? && UpThroughout(history, b) ==>
      Choose(pool, AsRead(history, moments), key).Some?
  {
    hide Choose, Wins;
    var flags := AsRead(history, moments);
    ChoiceExact(pool, flags, key);
    if Choose(pool, flags, key).Some? { ScanExact(pool, history, moments, key, Choose(pool, flags, key).value); }
    forall b | 0 <= b < |moments| && Candidate(pool, history, moments, key, b)
      ensures Choose(pool, flags, key).Some?
    {
      assert flags[b] && pool.HashWithBackend(key, b) != 0 && pool.backends[b].weight > 0.0;
    }
    forall b | 0 <= b < |moments| && pool.ScoreOf(key, b).Fin? && UpThroughout(history, b)
      ensures Candidate(pool, history, moments, key, b)
    {
      assert history[moments[b]][b];
    }
  }

  ghost predicate UpThroughout(history: seq<seq<bool>>, b: nat) {
    forall k :: 0 <= k < |history| ==> b < |history[k]| && history[k][b]
  }

  /**
    The choice is made on the flags as read, one after the other. When two backends swap places in between, a scan can
    find nobody although at each moment somebody with a finite score is up and would be chosen.
   */
  lemma ScanCanMissAll(pool: Pool, key: seq<Byte>)
    requires |pool.backends| == 2 && pool.ScoreOf(key, 0).Fin? && pool.ScoreOf(key, 1).Fin?
    ensures Choose(pool, [false, true], key) == Some(1) && Choose(pool, [true, false], key) == Some(0)
    ensures Choose(pool, AsRead([[false, true], [true, false]], [0, 1]), key) == None
  {
    var seen := AsRead([[false, true], [true, false]], [0, 1]);
    assert seen == [false, false];
    ChoiceExact(pool, seen, key);
    ChoiceExact(pool, [false, true], key);
    ChoiceExact(pool, [true, false], key);
    assert Wins(pool, [false, true], key, 1, 2) && Wins(pool, [true, false], key, 0, 2);
  }

  /** Independence of irrelevant backends: when each set's winner is up in the other set, the winners agree. */
  lemma WinnersAgree(pool: Pool, a: seq<bool>, b: seq<bool>, key: seq<Byte>)
    requires |a| == |b| == |pool.backends|
    requires Choose(pool, a, key).Some? && Choose(pool, b, key).Some?
    requires b[Choose(pool, a, key).value] && a[Choose(pool, b, key).value]
    ensures Choose(pool, a, key) == Choose(pool, b, key)
  {
    var x, y := Choose(pool, a, key).value, Choose(pool, b, key).value;
    ChoiceExact(pool, a, key);
    ChoiceExact(pool, b, key);
    assert Wins(pool, a, key, x, |a|) && Wins(pool, b, key, y, |b|);
  }

  /** The flags after the backends in a set went down. */
  function After(flags: seq<bool>, failed: set<nat>): (r: seq<bool>)
    ensures |r| == |flags|
  {
    seq(|flags|, b requires 0 <= b < |flags| => flags[b] && b !in failed)
  }

  /** Minimal disruption, exactly: when any set of backends fails, a key moves if and only if its backend failed. */
  lemma OnlyFailedMove(pool: Pool, flags: seq<bool>, failed: set<nat>, key: seq<Byte>)
    requires |flags| == |pool.backends| && Choose(pool, flags, key).Some?
    ensures Choose(pool, After(flags, failed), key) == Choose(pool, flags, key) <==>
      Choose(pool, flags, key).value !in failed
  {
    var b, rest := Choose(pool, flags, key).value, After(flags, failed);
    ChoiceExact(pool, flags, key);
    ChoiceExact(pool, rest, key);
    assert Wins(pool, flags, key, b, |flags|);
    if b !in failed {
      assert Wins(pool, rest, key, b, |rest|);
    } else {
      assert !Wins(pool, rest, key, b, |rest|);
    }
  }

  datatype Flip = Flip(backend: nat, up: bool)

  /** The flags after a run of failures and recoveries. */
  function Flipped(flags: seq<bool>, flips: seq<Flip>): (r: seq<bool>)
    ensures |r| == |flags|
  {
    if flips == [] then flags
    else
      var f, r := flips[|flips| - 1], Flipped(flags, flips[..|flips| - 1]);
      if f.backend < |r| then r[f.backend := f.up] else r
  }

  /** Backend b is up now, and nobody who is up now and was down then beats it. */
  ghost predicate KeepsPlace(pool: Pool, earlier: seq<bool>, now: seq<bool>, key: seq<Byte>, b: nat)
    requires |earlier| == |now| == |pool.backends| && b < |now|
  {
    now[b] && forall c :: 0 <= c < |now| && now[c] && !earlier[c] ==> !Beats(pool, key, c, b)
  }

  /**
    Over any run of failures and recoveries a key is back at its backend exactly when that backend is up and none of
    the newcomers, up now but not at the start, beats its score: nothing else moves a key.
   */
  lemma KeysMoveOnlyForCause(pool: Pool, flags: seq<bool>, flips: seq<Flip>, key: seq<Byte>)
    requires |flags| == |pool.backends| && Choose(pool, flags, key).Some?
    ensures var b, now := Choose(pool, flags, key).value, Flipped(flags, flips);
      Choose(pool, now, key) == Some(b) <==> KeepsPlace(pool, flags, now, key, b)
  {
    var b, now := Choose(pool, flags, key).value, Flipped(flags, flips);
    ChoiceExact(pool, flags, key);
    ChoiceExact(pool, now, key);
    hide Choose, Wins, Beats, Flipped;
    WinsUnbeaten(pool, flags, key, b);
    WinsUnbeaten(pool, now, key, b);
  }
}
