/** The dispatch table as it runs: a growable array, sorted on the first call
    after a registration and then binary-searched, re-entered by its callees. */
module Dispatch {
  import opened Words
  import opened Wrappers
  import M = DispatchModel

  datatype Entry = Entry(addr: Word, fn: nat)

  /** The first n entries are sorted by address. */
  ghost predicate Sorted(a: array<Entry>, n: nat)
    requires n <= a.Length
    reads a
  {
    forall i, j :: 0 <= i < j < n ==> a[i].addr <= a[j].addr
  }

  /** The entries, in any order, are exactly the map. */
  ghost predicate Holds(s: seq<Entry>, table: map<Word, nat>) {
    && (forall i :: 0 <= i < |s| ==> s[i].addr in table && table[s[i].addr] == s[i].fn)
    && (forall a :: a in table ==> Entry(a, table[a]) in s)
  }

  lemma PermutationHolds(s: seq<Entry>, t: seq<Entry>, table: map<Word, nat>)
    requires multiset(s) == multiset(t) && Holds(s, table)
    ensures Holds(t, table)
  {
    forall i | 0 <= i < |t|
      ensures t[i].addr in table && table[t[i].addr] == t[i].fn
    {
      assert t[i] in multiset(t);
      assert t[i] in s;
    }
    forall a | a in table
      ensures Entry(a, table[a]) in t
    {
      assert Entry(a, table[a]) in multiset(s);
    }
  }

  lemma AppendHolds(s: seq<Entry>, e: Entry, table: map<Word, nat>)
    requires Holds(s, table) && e.addr !in table
    ensures Holds(s + [e], table[e.addr := e.fn])
  {
    var t := table[e.addr := e.fn];
    forall a | a in t
      ensures Entry(a, t[a]) in s + [e]
    {
      if a == e.addr {
        assert (s + [e])[|s|] == Entry(a, t[a]);
      }
    }
  }

  class Dispatch {
    const bodies: M.Bodies
    var tab: array<Entry>
    var n: nat
    var dirty: bool
    var depth: nat
    var traps: nat
    var calls: nat
    ghost var state: M.State

    /** Not dirty means sorted; without double registration the entries are the map. */
    ghost predicate Valid()
      reads this, tab
    {
      && n <= tab.Length && (!dirty ==> Sorted(tab, n))
      && state.depth == depth && state.traps == traps && state.calls == calls
      && (!state.dup ==> Holds(tab[..n], state.table))
    }

    constructor (bodies: M.Bodies)
      ensures Valid() && fresh(tab) && this.bodies == bodies && n == 0 && !dirty
      ensures state == M.State(map[], false, 0, 0, 0, 0, 0, []) && M.Recorded(state)
    {
      this.bodies := bodies;
      tab := new Entry[0];
      n, dirty, depth, traps, calls := 0, false, 0, 0, 0;
      state := M.State(map[], false, 0, 0, 0, 0, 0, []);
    }

    /** Appends an entry, doubling the array when it is full; no entry is lost. */
    method Register(addr: Word, fn: nat)
      requires Valid()
      modifies this`tab, this`n, this`dirty, this`state, tab
      ensures Valid() && (tab == old(tab) || fresh(tab)) && dirty
      ensures tab[..n] == old(tab[..n]) + [Entry(addr, fn)]
      ensures state == M.DoRegister(old(state), addr, fn)
      ensures M.Recorded(old(state)) ==> M.Recorded(state)
    {
      hide M.Recorded, Holds, Sorted;
      M.RegisterRecords(state, addr, fn);
      ghost var before := tab[..n];
      if n == tab.Length {
        var cap := if tab.Length != 0 then 2 * tab.Length else 1024;
        var grown := new Entry[cap](i requires 0 <= i < cap reads this, tab =>
                                      if i < tab.Length then tab[i] else Entry(0, 0));
        assert grown[..n] == before;
        tab := grown;
      }
      tab[n] := Entry(addr, fn);
      n := n + 1;
      dirty := true;
      assert tab[..n] == before + [Entry(addr, fn)];
      if !state.dup && addr !in state.table {
        AppendHolds(before, Entry(addr, fn), state.table);
      }
      state := M.DoRegister(state, addr, fn);
    }

    /** Exchanges entries j - 1 and j. */
    method Swap(j: nat)
      requires 0 < j < n <= tab.Length
      modifies tab
      ensures tab[j - 1] == old(tab[j]) && tab[j] == old(tab[j - 1])
      ensures forall k :: 0 <= k < n && k != j - 1 && k != j ==> tab[k] == old(tab[k])
      ensures multiset(tab[..n]) == multiset(old(tab[..n]))
    {
      ghost var before := tab[..n];
      tab[j - 1], tab[j] := tab[j], tab[j - 1];
      assert tab[..n] == before[j - 1 := before[j]][j := before[j - 1]];
    }

    /** Moves entry i down to its place among the sorted entries before it. */
    method Insert(i: nat)
      requires i < n <= tab.Length && Sorted(tab, i)
      modifies tab
      ensures Sorted(tab, i + 1) && multiset(tab[..n]) == multiset(old(tab[..n]))
    {
      var j := i;
      while j > 0 && tab[j - 1].addr > tab[j].addr
        invariant 0 <= j <= i
        invariant forall p, q :: 0 <= p < q <= i && q != j ==> tab[p].addr <= tab[q].addr
        invariant multiset(tab[..n]) == multiset(old(tab[..n]))
      {
        Swap(j);
        j := j - 1;
      }
    }

    /** Sorts the entries by address: a sorted permutation, as `qsort` leaves it. */
    method Sort()
      requires n <= tab.Length
      modifies tab
      ensures Sorted(tab, n) && multiset(tab[..n]) == multiset(old(tab[..n]))
    {
      var i := 0;
      while i < n
        invariant i <= n && Sorted(tab, i)
        invariant multiset(tab[..n]) == multiset(old(tab[..n]))
      {
        Insert(i);
        i := i + 1;
      }
    }

    /** Binary search for the first entry at or above addr. */
    method Find(addr: Word) returns (lo: nat)
      requires n <= tab.Length && Sorted(tab, n)
      ensures lo <= n
      ensures forall k :: 0 <= k < lo ==> tab[k].addr < addr
      ensures forall k :: lo <= k < n ==> tab[k].addr >= addr
    {
      lo := 0;
      var hi := n;
      while lo < hi
        invariant lo <= hi <= n
        invariant forall k :: 0 <= k < lo ==> tab[k].addr < addr
        invariant forall k :: hi <= k < n ==> tab[k].addr >= addr
      {
        var mid := lo + (hi - lo) / 2;
        if tab[mid].addr < addr {
          lo := mid + 1;
        } else {
          hi := mid;
        }
      }
    }

    /** Sorts if something was registered since the last call. */
    method Settle()
      requires Valid()
      modifies this`dirty, tab
      ensures Valid() && !dirty
    {
      hide Holds;
      if dirty {
        ghost var before := tab[..n];
        Sort();
        if !state.dup { PermutationHolds(before, tab[..n], state.table); }
        dirty := false;
      }
    }

    /** Sorts if need be, then searches. */
    method Lookup(addr: Word) returns (fn: Option<nat>)
      requires Valid()
      modifies this`dirty, tab
      ensures Valid() && !dirty
      ensures !state.dup ==> fn == if addr in state.table then Some(state.table[addr]) else None
    {
      Settle();
      var lo := Find(addr);
      ghost var s := tab[..n];
      assert forall k :: 0 <= k < n ==> s[k] == tab[k];
      if lo < n && tab[lo].addr == addr {
        return Some(tab[lo].fn);
      }
      if !state.dup { NotHeld(s, state.table, addr, lo); }
      return None;
    }

    /** `ngage_call`: runs the function registered for addr, which may register and
        call in turn, or reports that there is none. */
    method Call(addr: Word) returns (out: M.Outcome)
      requires Valid()
      modifies this, tab
      ensures Valid() && (tab == old(tab) || fresh(tab)) && depth >= old(depth)
      ensures var r := M.DoCall(bodies, addr, old(state)); !r.s.dup ==> state == r.s && out == r.out
      ensures !M.DoCall(bodies, addr, old(state)).s.dup && M.Recorded(old(state)) ==> M.Recorded(state)
      decreases M.Room(depth), 0
    {
      hide M.DoActs, Holds, Sorted, M.Recorded;
      if M.Recorded(state) { M.CallsTruthful(bodies, addr, state); }
      ghost var before := state;
      depth := depth + 1;
      state := state.(depth := depth);
      if depth > M.DEPTH_MAX {
        return M.Aborted;
      }
      var fn := Lookup(addr);
      if fn.Some? {
        state := M.Enter(before, addr, fn.value);
        calls := calls + 1;
        out := RunActs(bodies(fn.value, calls - 1));
        if out.Normal? {
          depth := depth - 1;
          state := M.Exit(state);
        }
      } else {
        depth := depth - 1;
        state := before.(log := before.log + [M.Missing(addr)]);
        out := M.Normal;
      }
    }

    /** The body of a registered function, act by act. */
    method RunActs(acts: seq<M.Act>) returns (out: M.Outcome)
      requires Valid()
      modifies this, tab
      ensures Valid() && (tab == old(tab) || fresh(tab)) && depth >= old(depth)
      ensures var r := M.DoActs(bodies, acts, old(state)); !r.s.dup ==> state == r.s && out == r.out
      decreases M.Room(depth), 1, acts
    {
      hide M.DoAct, Holds, Sorted;
      if acts == [] {
        return M.Normal;
      }
      out := RunAct(acts[0]);
      if out.Normal? {
        out := RunActs(acts[1..]);
      }
    }

    method RunAct(act: M.Act) returns (out: M.Outcome)
      requires Valid()
      modifies this, tab
      ensures Valid() && (tab == old(tab) || fresh(tab)) && depth >= old(depth)
      ensures var r := M.DoAct(bodies, act, old(state)); !r.s.dup ==> state == r.s && out == r.out
      decreases M.Room(depth), 1, act
    {
      hide M.DoActs, M.DoCall, Holds, Sorted;
      match act
      case Register(addr, fn) =>
        Register(addr, fn);
        out := M.Normal;
      case Call(addr) => out := Call(addr);
      case Leave => out := if traps == 0 then M.Normal else M.Left;
      case Trap(body) =>
        if traps >= M.TRAPS_MAX {
          return M.Normal;
        }
        var level := traps;
        ghost var live := state.live;
        traps := traps + 1;
        state := state.(traps := traps);
        out := RunActs(body);
        if !out.Aborted? {
          ghost var lost := if out.Left? && state.live >= live then state.live - live else 0;
          traps := level;
          state := state.(traps := level, live := state.live - lost, lost := state.lost + lost);
          out := M.Normal;
        }
    }
  }

  /** An address the binary search does not find is not in the map. */
  lemma NotHeld(s: seq<Entry>, table: map<Word, nat>, addr: Word, lo: nat)
    requires Holds(s, table) && lo <= |s|
    requires forall k :: 0 <= k < lo ==> s[k].addr < addr
    requires forall k :: lo <= k < |s| ==> s[k].addr >= addr
    requires forall j, k :: lo <= j < k < |s| ==> s[j].addr <= s[k].addr
    requires lo < |s| ==> s[lo].addr != addr
    ensures addr !in table
  {
    if addr in table {
      var e := Entry(addr, table[addr]);
      var k :| 0 <= k < |s| && s[k] == e;
    }
  }
}
