/** The loops of proc.c over the process table: what wakeup, reparent, the critical section of exit
    and the scan of wait do while their caller holds wait_lock. */
module ProcTable {
  import opened WaitExit

  /** wakeup(chan) by process me. */
  ghost predicate WokeUp(st: seq<PState>, chan: Chan, me: nat, st': seq<PState>) {
    && |st'| == |st|
    && forall j {:trigger st'[j]} :: 0 <= j < |st| ==> st'[j] == if j != me && st[j] == Sleeping(chan) then Runnable else st[j]
  }

  /** p's children now belong to init. */
  ghost predicate HandedOver(parent: seq<int>, p: nat, init: nat, parent': seq<int>) {
    && |parent'| == |parent|
    && forall c {:trigger parent'[c]} :: 0 <= c < |parent| ==> parent'[c] == if parent[c] == p then init else parent[c]
  }

  class Table {
    const st: array<PState>
    const parent: array<int>
    const init: nat

    ghost predicate Valid() {
      st != parent as object && st.Length == parent.Length && init < st.Length
    }

    constructor (n: nat)
      requires n > 0
      ensures Valid() && fresh(st) && fresh(parent) && st.Length == n && init == 0
      ensures st[0] == Runnable && parent[0] == -1
      ensures forall j :: 1 <= j < n ==> st[j] == Unused && parent[j] == -1
    {
      st := new PState[n](j => if j == 0 then Runnable else Unused);
      parent := new int[n](_ => -1);
      init := 0;
    }

    /** Exactly the processes asleep on chan become runnable. */
    method Wakeup(chan: Chan, me: nat)
      requires Valid()
      modifies st
      ensures WokeUp(old(st[..]), chan, me, st[..])
    {
      var j := 0;
      while j < st.Length
        invariant 0 <= j <= st.Length
        invariant forall i :: 0 <= i < j ==> st[i] == if i != me && old(st[i]) == Sleeping(chan) then Runnable else old(st[i])
        invariant forall i :: j <= i < st.Length ==> st[i] == old(st[i])
      {
        if j != me && st[j] == Sleeping(chan) {
          st[j] := Runnable;
        }
        j := j + 1;
      }
    }

    /** Every child of p goes to init, which is woken exactly when there is one. */
    method Reparent(p: nat)
      requires Valid() && p < st.Length && p != init
      modifies st, parent
      ensures HandedOver(old(parent[..]), p, init, parent[..])
      ensures if p in old(parent[..]) then WokeUp(old(st[..]), OnProc(init), p, st[..]) else st[..] == old(st[..])
    {
      var k := 0;
      ghost var found := false;
      while k < st.Length
        invariant 0 <= k <= st.Length
        invariant found <==> exists c :: 0 <= c < k && old(parent[c]) == p
        invariant forall c :: 0 <= c < k ==> parent[c] == if old(parent[c]) == p then init else old(parent[c])
        invariant forall c :: k <= c < st.Length ==> parent[c] == old(parent[c])
        invariant if found then WokeUp(old(st[..]), OnProc(init), p, st[..]) else st[..] == old(st[..])
      {
        if parent[k] == p {
          parent[k] := init;
          ghost var before := st[..];
          Wakeup(OnProc(init), p);
          found := true;
        }
        k := k + 1;
      }
    }

    /** What exit does under wait_lock, for a process with a living parent: afterwards p is a zombie
        without children, and neither its parent nor a new parent of its children is asleep in
        wait. */
    method Exit(p: nat)
      requires Valid() && p < st.Length && p != init && 0 <= parent[p] < st.Length && parent[p] != p
      modifies st, parent
      ensures HandedOver(old(parent[..]), p, init, parent[..]) && p !in parent[..]
      ensures st[p] == Zombie
      ensures st[old(parent[p])] != Sleeping(OnProc(old(parent[p])))
      ensures p in old(parent[..]) ==> st[init] != Sleeping(OnProc(init))
      ensures forall j :: 0 <= j < st.Length && j != p ==>
        st[j] == old(st[j]) || (st[j] == Runnable && (old(st[j]) == Sleeping(OnProc(old(parent[p]))) || old(st[j]) == Sleeping(OnProc(init))))
    {
      Reparent(p);
      Wakeup(OnProc(parent[p]), p);
      st[p] := Zombie;
    }

    /** The scan of wait: the lowest zombie child is freed; without one the table is unchanged. */
    method Scan(p: nat) returns (found: int, kids: bool)
      requires Valid() && p < st.Length
      modifies st, parent
      ensures found == -1 || 0 <= found < st.Length
      ensures found >= 0 ==>
        && old(parent[found]) == p && old(st[found]) == Zombie
        && (forall c :: 0 <= c < found && old(parent[c]) == p ==> old(st[c]) != Zombie)
        && st[..] == old(st[..])[found := Unused] && parent[..] == old(parent[..])[found := -1]
      ensures found == -1 ==>
        && st[..] == old(st[..]) && parent[..] == old(parent[..])
        && (forall c :: 0 <= c < st.Length && parent[c] == p ==> st[c] != Zombie)
        && (kids <==> p in parent[..])
    {
      kids, found := false, -1;
      var k := 0;
      while k < st.Length
        invariant 0 <= k <= st.Length
        invariant forall c :: 0 <= c < k && parent[c] == p ==> st[c] != Zombie
        invariant kids <==> exists c :: 0 <= c < k && parent[c] == p
        invariant st[..] == old(st[..]) && parent[..] == old(parent[..])
      {
        if parent[k] == p {
          kids := true;
          if st[k] == Zombie {
            st[k], parent[k] := Unused, -1;
            return k, kids;
          }
        }
        k := k + 1;
      }
    }
  }
}
