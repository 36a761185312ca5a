/** The bounded undo history (src/undo/undostack.ts): the most recent
    `capacity` undo records, oldest first. */
module UndoHistory {
  import opened Common

  /** The last `n` entries of `s`, in order (all of `s` when it is short). */
  function KeepLast<U>(s: seq<U>, n: nat): (r: seq<U>)
    ensures |r| == if |s| <= n then |s| else n
    ensures r == s[|s| - |r|..]
  {
    if |s| <= n then s else s[|s| - n..]
  }

  /** What pop hands back and what it leaves: nothing from an empty history,
      otherwise the newest record, with the rest kept in order. */
  function Popped<U>(s: seq<U>): (r: (Option<U>, seq<U>))
    ensures s == [] ==> r == (None, [])
    ensures s != [] ==> r.0 == Some(s[|s| - 1]) && r.1 + [s[|s| - 1]] == s
  {
    if s == [] then (None, []) else (Some(s[|s| - 1]), s[..|s| - 1])
  }

  /** Pushing onto a history already cut to `n` keeps the same records as
      cutting once at the end: the history is always the last `n` records
      pushed. */
  lemma KeepLastAbsorbs<U>(s: seq<U>, u: U, n: nat)
    ensures KeepLast(KeepLast(s, n) + [u], n) == KeepLast(s + [u], n)
  {
    var k := KeepLast(s, n);
    var full := s + [u];
    if |s| > n {
      assert k + [u] == full[|full| - n - 1..];
      assert KeepLast(k + [u], n) == (k + [u])[1..];
      assert (k + [u])[1..] == full[|full| - n..];
    }
  }

  /** With room for at least one record, popping right after a push returns
      the record pushed and leaves the history as the push found it, cut to
      one record fewer; when nothing was cut it is restored exactly. */
  lemma PushThenPop<U>(s: seq<U>, u: U, n: nat)
    requires n >= 1
    ensures Popped(KeepLast(s + [u], n)).0 == Some(u)
    ensures Popped(KeepLast(s + [u], n)).1 == KeepLast(s, n - 1)
    ensures |s| < n ==> Popped(KeepLast(s + [u], n)).1 == s
  {
    var full := s + [u];
    var k := KeepLast(full, n);
    assert k[|k| - 1] == full[|full| - 1];
    var rest := Popped(k).1;
    assert rest == k[..|k| - 1];
    if |full| > n {
      assert rest == full[|full| - n..|full| - 1];
      assert full[|full| - n..|full| - 1] == s[|s| - (n - 1)..];
    } else {
      assert rest == full[..|full| - 1];
      assert full[..|full| - 1] == s;
    }
  }

  class UndoStack<U> {
    var undoList: seq<U>
    const capacity: nat

    constructor(capacity: nat)
      ensures this.capacity == capacity && undoList == []
    {
      this.capacity := capacity;
      undoList := [];
    }

    /** push: appends the record, then drops records from the front while the
        history is over capacity. */
    method Push(undo: U)
      modifies this
      ensures undoList == KeepLast(old(undoList) + [undo], capacity)
    {
      ghost var full := undoList + [undo];
      undoList := undoList + [undo];
      while |undoList| > capacity
        invariant |undoList| <= |full| && undoList == full[|full| - |undoList|..]
        invariant |undoList| >= capacity || undoList == full
        decreases |undoList|
      {
        undoList := undoList[1..];
      }
    }

    /** pop: removes and returns the newest record, or returns nothing and
        changes nothing when the history is empty. */
    method Pop() returns (r: Option<U>)
      modifies this
      ensures (r, undoList) == Popped(old(undoList))
    {
      if |undoList| == 0 {
        return None;
      }
      var last := undoList[|undoList| - 1];
      undoList := undoList[..|undoList| - 1];
      return Some(last);
    }

    /** clear: forgets every record. */
    method Clear()
      modifies this
      ensures undoList == []
    {
      undoList := [];
    }
  }
}
