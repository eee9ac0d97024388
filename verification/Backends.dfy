/** The backends and their health flags; the health checker may flip any flag at any time. */
module Backends {
  import opened Net
  import opened Counting

  datatype Backend = Backend(address: seq<Byte>, weight: real)

  /** The indices below n whose flag is up, in order. */
  function AliveBelow(flags: seq<bool>, n: nat): (s: seq<nat>)
    requires n <= |flags|
    ensures forall k :: 0 <= k < |s| ==> s[k] < n && flags[s[k]]
    ensures forall b: nat :: b in s <==> b < n && flags[b]
    ensures Injective(s)
    ensures forall i, j :: 0 <= i < j < |s| ==> s[i] < s[j]
  {
    if n == 0 then [] else AliveBelow(flags, n - 1) + if flags[n - 1] then [n - 1] else []
  }

  ghost predicate SomeAlive(flags: seq<bool>) {
    true in flags
  }

  lemma SomeAliveListed(flags: seq<bool>)
    ensures SomeAlive(flags) <==> AliveBelow(flags, |flags|) != []
  {
    if SomeAlive(flags) {
      var b: nat :| b < |flags| && flags[b];
      assert b in AliveBelow(flags, |flags|);
    }
  }

  /** The filter over the list of backends. */
  method LiveIndices(flags: seq<bool>) returns (live: seq<nat>)
    ensures live == AliveBelow(flags, |flags|)
  {
    live := [];
    for b := 0 to |flags|
      invariant live == AliveBelow(flags, b)
    {
      if flags[b] {
        live := live + [b];
      }
    }
  }
}
