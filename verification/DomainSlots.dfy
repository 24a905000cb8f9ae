/**
  The slots of domains (`runtime/domain.c`): `stw_domains.domains` lists all slots, those
  of running domains first, and the slots that were ever initialised are the first ones
  of `all_domains`, whatever sequence of creations, failed creations and terminations.
 */
module DomainSlots {

  import opened Common

  type Slot = nat

  // ------------------------------------------------------------------ invariants

  /** `domains` lists every slot exactly once. */
  ghost predicate Permutation(domains: seq<Slot>) {
    && (forall i :: 0 <= i < |domains| ==> domains[i] < |domains|)
    && (forall i, j :: 0 <= i < j < |domains| ==> domains[i] != domains[j])
    && (forall d: Slot :: d < |domains| ==> d in domains)
  }

  /** The slots of running domains are the participating prefix. */
  ghost predicate PrefixRuns(domains: seq<Slot>, participating: nat, running: set<Slot>) {
    && participating <= |domains|
    && forall d: Slot :: d in running <==> d in domains[..participating]
  }

  /** The first `used` slots have an interrupt word, and no others; the list does not mix
      them with the rest, which is still in its initial order. */
  ghost predicate UsedFirst(domains: seq<Slot>, used: nat, hasWord: set<Slot>) {
    && used <= |domains|
    && (forall d: Slot :: d in hasWord <==> d < used)
    && (forall i :: 0 <= i < used ==> i < |domains| && domains[i] < used)
    && (forall i :: used <= i < |domains| ==> domains[i] == i)
  }

  function Swap(s: seq<Slot>, i: nat, j: nat): seq<Slot>
    requires i < |s| && j < |s|
  {
    s[i := s[j]][j := s[i]]
  }

  lemma SwapPermutation(s: seq<Slot>, i: nat, j: nat)
    requires Permutation(s) && i < |s| && j < |s|
    ensures Permutation(Swap(s, i, j))
  {
    var t := Swap(s, i, j);
    forall d: Slot | d < |t| ensures d in t {
      assert d in s;
      var k :| 0 <= k < |s| && s[k] == d;
      assert t[if k == i then j else if k == j then i else k] == d;
    }
  }

  /** Removing a domain: it trades places with the last participant. */
  lemma SwapPrefix(s: seq<Slot>, n: nat, running: set<Slot>, i: nat)
    requires Permutation(s) && PrefixRuns(s, n, running) && i < n
    ensures PrefixRuns(Swap(s, i, n - 1), n - 1, running - {s[i]})
  {
    var t := Swap(s, i, n - 1);
    forall d: Slot ensures d in running - {s[i]} <==> d in t[..n - 1] {
      if d in running && d != s[i] {
        var k :| 0 <= k < n && s[..n][k] == d;
        assert t[..n - 1][if k == n - 1 then i else k] == d;
      }
      if d in t[..n - 1] {
        var k :| 0 <= k < n - 1 && t[..n - 1][k] == d;
        assert s[..n][if k == i then n - 1 else k] == d;
      }
    }
  }

  lemma SwapUsed(s: seq<Slot>, used: nat, hasWord: set<Slot>, i: nat, j: nat)
    requires UsedFirst(s, used, hasWord) && i < used && j < used
    ensures UsedFirst(Swap(s, i, j), used, hasWord)
  {
  }

  /** The search of remove_from_stw_domains. */
  method Find(domains: seq<Slot>, n: nat, d: Slot) returns (i: nat)
    requires n <= |domains| && d in domains[..n]
    ensures i < n && domains[i] == d
  {
    ghost var k :| 0 <= k < n && domains[..n][k] == d;
    i := 0;
    while domains[i] != d
      invariant 0 <= i <= k
      decreases k - i
    {
      i := i + 1;
    }
  }

  /** How a creation may go: it may fail before or after the slot is initialised. */
  datatype Fate = NoState | FailsLater | Succeeds

  class StwDomains {
    var participating: nat            // participating_domains
    var domains: seq<Slot>            // stw_domains.domains
    var running: set<Slot>            // interruptor.running
    var hasWord: set<Slot>            // interruptor.interrupt_word != NULL
    ghost var used: nat

    ghost predicate Valid()
      reads this
    {
      && Permutation(domains) && PrefixRuns(domains, participating, running)
      && UsedFirst(domains, used, hasWord) && participating <= used
    }

    /** caml_init_domains */
    constructor (maxDomains: nat)
      ensures Valid() && |domains| == maxDomains && running == {} && hasWord == {}
    {
      participating, running, hasWord, used := 0, {}, {}, 0;
      domains := seq(maxDomains, (i: nat) => i);
      new;
      forall d: Slot | d < maxDomains ensures d in domains {
        assert domains[d] == d;
      }
    }

    /** domain_create: the slot of the new domain, if it succeeds. A creation that fails
        after the slot was initialised leaves it so, and the next creation gets it. */
    method Create(fate: Fate) returns (d: Option<Slot>)
      requires Valid()
      modifies this
      ensures Valid() && domains == old(domains)
      ensures d.Some? <==> fate == Succeeds && old(participating) < |domains|
      ensures running == old(running) + (if d.Some? then {d.value} else {})
      ensures d.Some? ==> d.value !in old(running) && d.value in hasWord
      ensures hasWord == old(hasWord) +
        (if fate != NoState && old(participating) < |domains| then {old(domains)[old(participating)]} else {})
    {
      if participating == |domains| || fate == NoState {
        return None;
      }
      var slot := domains[participating];
      NextFree(domains, participating, running);
      hasWord := hasWord + {slot};
      if participating == used {
        used := used + 1;
      }
      if fate == FailsLater {
        return None;
      }
      running := running + {slot};
      assert domains[..participating + 1] == domains[..participating] + [slot];
      participating := participating + 1;
      d := Some(slot);
    }

    /** domain_terminate and remove_from_stw_domains. */
    method Terminate(d: Slot)
      requires Valid() && d in running
      modifies this`participating, this`domains, this`running
      ensures Valid() && running == old(running) - {d} && |domains| == |old(domains)|
    {
      assert d in domains[..participating];
      var i := Find(domains, participating, d);
      SwapPermutation(domains, i, participating - 1);
      SwapPrefix(domains, participating, running, i);
      SwapUsed(domains, used, hasWord, i, participating - 1);
      running := running - {d};
      participating := participating - 1;
      domains := domains[i := domains[participating]][participating := d];
    }

    /** caml_interrupt_all_signal_safe: stops at the first slot without an interrupt word,
        and still reaches every slot that has one. */
    method InterruptAll() returns (interrupted: set<Slot>)
      requires Valid()
      ensures interrupted == hasWord && running <= interrupted
    {
      interrupted := {};
      var d := 0;
      while d < |domains|
        invariant d <= used && forall i: Slot :: i in interrupted <==> i < d
      {
        if d !in hasWord {
          break;
        }
        interrupted := interrupted + {d};
        d := d + 1;
      }
      RunningUsed(domains, participating, running, used, hasWord);
    }
  }

  lemma NextFree(domains: seq<Slot>, n: nat, running: set<Slot>)
    requires Permutation(domains) && PrefixRuns(domains, n, running) && n < |domains|
    ensures domains[n] !in running
  {
    assert domains[n] !in domains[..n];
  }

  lemma RunningUsed(domains: seq<Slot>, n: nat, running: set<Slot>, used: nat, hasWord: set<Slot>)
    requires PrefixRuns(domains, n, running) && UsedFirst(domains, used, hasWord) && n <= used
    ensures running <= hasWord
  {
  }
}
