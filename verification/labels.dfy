/** `_register_label` (bg2obs.py:246-255): the footnote label allocator of the
    passage parser, and the uniqueness it guarantees over a run. */
module Labels {
  import opened Strings

  /** The label tried when the suffix counter is `k`: the base itself for the
      first try, then the base followed by `k` in decimal (`a`, `a2`, `a3`, ...). */
  function Candidate(base: string, k: nat): string {
    if k <= 1 then base else base + NatToString(k)
  }

  /** Different counters give different candidates. */
  lemma CandidateInjective(base: string, j: nat, k: nat)
    requires 1 <= j && 1 <= k && j != k
    ensures Candidate(base, j) != Candidate(base, k)
  {
    if j >= 2 && k >= 2 {
      NatToStringRoundTrip(j);
      NatToStringRoundTrip(k);
      assert Candidate(base, j)[|base|..] == NatToString(j);
      assert Candidate(base, k)[|base|..] == NatToString(k);
    } else {
      assert |Candidate(base, j)| != |Candidate(base, k)|;
    }
  }

  /** The candidates tried with counters `1..k`. */
  function Tried(base: string, k: nat): set<string>
    decreases k
  {
    if k == 0 then {} else Tried(base, k - 1) + {Candidate(base, k)}
  }

  lemma {:induction false} NotYetTried(base: string, k: nat, m: nat)
    requires 1 <= k && m < k
    ensures Candidate(base, k) !in Tried(base, m)
    decreases m
  {
    if m > 0 {
      NotYetTried(base, k, m - 1);
      CandidateInjective(base, k, m);
    }
  }

  /** `k` tries are `k` distinct labels. */
  lemma {:induction false} TriedSize(base: string, k: nat)
    ensures |Tried(base, k)| == k
    decreases k
  {
    if k > 0 {
      TriedSize(base, k - 1);
      NotYetTried(base, k, k - 1);
    }
  }

  lemma {:induction false} SubsetSize<T>(a: set<T>, b: set<T>)
    requires a <= b
    ensures |a| <= |b|
    decreases |a|
  {
    if a != {} {
      var x :| x in a;
      SubsetSize(a - {x}, b - {x});
    }
  }

  /** The counter at which the `while label in used_labels` loop stops, started
      at counter `k`: the first free candidate from there on. It exists because
      the used set is finite and the candidates are pairwise distinct. */
  function FreeSuffix(base: string, used: set<string>, k: nat): (n: nat)
    requires k >= 1
    requires Tried(base, k - 1) <= used
    ensures n >= k && Candidate(base, n) !in used
    ensures forall j :: k <= j < n ==> Candidate(base, j) in used
    decreases |used| + 1 - k
  {
    if Candidate(base, k) !in used then k
    else
      TriedSize(base, k);
      SubsetSize(Tried(base, k), used);
      FreeSuffix(base, used, k + 1)
  }

  /** What a call of `_register_label` leaves behind: the label it returns and
      the grown `used_labels` set. */
  datatype Registered = Registered(chosen: string, used: set<string>)

  /** The label the loop starts from: the derived label, or the next sequence
      number when the derived label is empty. */
  function BaseLabel(derived: string, used: set<string>): string {
    if derived == "" then NatToString(|used| + 1) else derived
  }

  /** `_register_label`. The result is never a previously used label, a fresh
      label comes back unchanged, a colliding one gets the smallest free numeric
      suffix from 2 on, and the used set grows by exactly that label. */
  function RegisterLabel(derived: string, used: set<string>): (r: Registered)
    ensures r.chosen !in used && r.chosen != ""
    ensures r.used == used + {r.chosen} && |r.used| == |used| + 1
    ensures derived != "" && derived !in used ==> r.chosen == derived
    ensures derived == "" && NatToString(|used| + 1) !in used ==> r.chosen == NatToString(|used| + 1)
    ensures var base := BaseLabel(derived, used);
            || (r.chosen == base && base !in used)
            || (&& base in used
                && exists n :: n >= 2 && r.chosen == base + NatToString(n)
                     && forall j :: 2 <= j < n ==> base + NatToString(j) in used)
  {
    var base := BaseLabel(derived, used);
    var n := FreeSuffix(base, used, 1);
    var l := Candidate(base, n);
    SuffixedCandidate(base, used, n);
    Registered(l, used + {l})
  }

  lemma SuffixedCandidate(base: string, used: set<string>, n: nat)
    requires n >= 1 && forall j :: 1 <= j < n ==> Candidate(base, j) in used
    ensures n >= 2 ==> && base in used
                       && Candidate(base, n) == base + NatToString(n)
                       && forall j :: 2 <= j < n ==> base + NatToString(j) in used
  {
    if n >= 2 {
      assert Candidate(base, 1) in used;
      forall j | 2 <= j < n ensures base + NatToString(j) in used {
        assert Candidate(base, j) in used;
      }
    }
  }

  /** Labels for a sequence of footnote markers registered one after the other. */
  datatype Batch = Batch(labels: seq<string>, used: set<string>)

  /** Registering the derived labels of successive footnote markers: one label per
      marker, all pairwise distinct and none previously used, even when the
      derived labels collide. */
  function RegisterAll(bases: seq<string>, used: set<string>): (b: Batch)
    ensures |b.labels| == |bases|
    ensures forall i, j :: 0 <= i < j < |b.labels| ==> b.labels[i] != b.labels[j]
    ensures forall i :: 0 <= i < |b.labels| ==> b.labels[i] !in used
    ensures b.used == used + (set l | l in b.labels)
    decreases |bases|
  {
    if |bases| == 0 then Batch([], used)
    else
      var prev := RegisterAll(bases[..|bases| - 1], used);
      var reg := RegisterLabel(bases[|bases| - 1], prev.used);
      RegisterAllStep(used, prev, reg);
      Batch(prev.labels + [reg.chosen], reg.used)
  }

  lemma RegisterAllStep(used: set<string>, prev: Batch, reg: Registered)
    requires forall i, j :: 0 <= i < j < |prev.labels| ==> prev.labels[i] != prev.labels[j]
    requires forall i :: 0 <= i < |prev.labels| ==> prev.labels[i] !in used
    requires prev.used == used + (set l | l in prev.labels)
    requires reg.chosen !in prev.used && reg.used == prev.used + {reg.chosen}
    ensures var labels := prev.labels + [reg.chosen];
            && (forall i, j :: 0 <= i < j < |labels| ==> labels[i] != labels[j])
            && (forall i :: 0 <= i < |labels| ==> labels[i] !in used)
            && reg.used == used + (set l | l in labels)
  {
    var labels := prev.labels + [reg.chosen];
    forall i | 0 <= i < |prev.labels| ensures labels[i] == prev.labels[i] && labels[i] in prev.used {
      assert prev.labels[i] in (set l | l in prev.labels);
    }
    assert (set l | l in labels) == (set l | l in prev.labels) + {reg.chosen};
  }

  /** Into an empty registry a non-empty label goes in unchanged; the same
      label a second time comes back with suffix 2. */
  lemma SecondCollision(b: string)
    requires b != ""
    ensures RegisterLabel(b, {}).chosen == b
    ensures RegisterLabel(b, {b}).chosen == b + "2"
    ensures RegisterLabel(b, {b}).used == {b, b + "2"}
  {
    assert NatToString(2) == "2";
    assert BaseLabel(b, {b}) == b;
  }

  /** Two markers that both derive the label `a` become `a` and `a2`. */
  lemma CollidingMarkers()
    ensures RegisterAll(["a", "a"], {}).labels == ["a", "a2"]
  {
    var first := RegisterLabel("a", {});
    assert first.chosen == "a";
    var second := RegisterLabel("a", {"a"});
    assert NatToString(2) == "2";
    assert FreeSuffix("a", {"a"}, 1) == 2;
    assert second.chosen == "a2";
    assert ["a", "a"][..1] == ["a"];
    assert RegisterAll(["a"], {}).labels == ["a"] by {
      assert ["a"][..0] == [];
    }
  }
}
