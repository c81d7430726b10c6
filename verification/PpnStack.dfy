/**
  The allocator's stack of physical page numbers: a ring of 2048 slots whose top and base are 16-bit
  counters that run freely and wrap. It is a bounded double-ended sequence, and the allocator on
  top of it never loses a page or holds one twice.
  */
module PpnStack {

  import opened Options
  import opened Arithmetic
  import opened Pigeonhole

  const STACK_SIZE: nat := 2048

  function Slot(i: nat): (k: nat)
    ensures k < STACK_SIZE
  {
    i % STACK_SIZE
  }

  /** The ring holds `s`, its first element at the base. */
  ghost predicate Holds(ring: seq<nat>, top: nat, base: nat, s: seq<nat>) {
    && |ring| == STACK_SIZE && base < RANGE16 && |s| <= STACK_SIZE && top == (base + |s|) % RANGE16
    && forall i {:trigger s[i]} :: 0 <= i < |s| ==> s[i] == ring[Slot(base + i)]
  }

  /** The ring's size divides the range of the counters, so slots do not depend on wrap-around. */
  lemma SlotWraps(i: nat)
    ensures Slot(i % RANGE16) == Slot(i)
  {
  }

  lemma TopMoves(base: nat, n: nat)
    ensures ((base + n) % RANGE16 + 1) % RANGE16 == (base + n + 1) % RANGE16
  {
  }

  lemma SlotMoves(base: nat, i: nat)
    ensures Slot((base + 1) % RANGE16 + i) == Slot(base + 1 + i)
  {
  }

  lemma SlotsApart(base: nat, i: nat, j: nat)
    requires i < j < i + STACK_SIZE
    ensures Slot(base + i) != Slot(base + j)
  {
  }

  /** The code's tests for full and empty are exact, although the counters wrap. */
  lemma HoldsTests(ring: seq<nat>, top: nat, base: nat, s: seq<nat>)
    requires Holds(ring, top, base, s)
    ensures top == base <==> s == []
    ensures top == (base + STACK_SIZE) % RANGE16 <==> |s| == STACK_SIZE
  {
  }

  lemma HoldsPush(ring: seq<nat>, top: nat, base: nat, s: seq<nat>, p: nat)
    requires Holds(ring, top, base, s) && |s| < STACK_SIZE
    ensures Holds(ring[Slot(top) := p], (top + 1) % RANGE16, base, s + [p])
  {
    hide Slot;
    SlotWraps(base + |s|);
    var ring', s' := ring[Slot(top) := p], s + [p];
    TopMoves(base, |s|);
    forall i | 0 <= i < |s'| ensures s'[i] == ring'[Slot(base + i)] {
      if i < |s| { SlotsApart(base, i, |s|); }
    }
  }

  lemma HoldsPop(ring: seq<nat>, top: nat, base: nat, s: seq<nat>)
    requires Holds(ring, top, base, s) && s != []
    ensures ring[Slot((top + RANGE16 - 1) % RANGE16)] == s[|s| - 1]
    ensures Holds(ring, (top + RANGE16 - 1) % RANGE16, base, s[..|s| - 1])
  {
    SlotWraps(base + |s| - 1);
    assert (top + RANGE16 - 1) % RANGE16 == (base + |s| - 1) % RANGE16;
  }

  lemma HoldsPopBase(ring: seq<nat>, top: nat, base: nat, s: seq<nat>)
    requires Holds(ring, top, base, s) && s != []
    ensures ring[Slot(base)] == s[0]
    ensures Holds(ring, top, (base + 1) % RANGE16, s[1..])
  {
    var base', s' := (base + 1) % RANGE16, s[1..];
    assert top == (base' + |s'|) % RANGE16;
    forall i | 0 <= i < |s'| ensures s'[i] == ring[Slot(base' + i)] {
      assert s'[i] == s[i + 1];
      SlotMoves(base, i);
    }
  }

  class Stack {
    const ring: array<nat>
    var top: nat
    var base: nat
    ghost var contents: seq<nat>

    ghost predicate Valid()
      reads this, ring
    {
      Holds(ring[..], top, base, contents)
    }

    constructor (start: nat)
      requires start < RANGE16
      ensures Valid() && contents == [] && fresh(ring)
    {
      ring := new nat[STACK_SIZE];
      top, base, contents := start, start, [];
    }

    /** Pushes a page unless the stack is full. */
    method Push(p: nat) returns (ok: bool)
      requires Valid()
      modifies this`top, this`contents, ring
      ensures Valid() && (ok <==> |old(contents)| < STACK_SIZE)
      ensures contents == if ok then old(contents) + [p] else old(contents)
    {
      HoldsTests(ring[..], top, base, contents);
      ok := top != (base + STACK_SIZE) % RANGE16;
      if ok {
        HoldsPush(ring[..], top, base, contents, p);
        ghost var r := ring[..];
        ring[Slot(top)] := p;
        assert ring[..] == r[Slot(top) := p];
        top, contents := (top + 1) % RANGE16, contents + [p];
      }
    }

    /** Takes the youngest page. */
    method Pop() returns (p: Option<nat>)
      requires Valid()
      modifies this`top, this`contents
      ensures Valid() && (p.None? <==> old(contents) == [])
      ensures if p.Some? then old(contents) == contents + [p.value] else contents == old(contents)
    {
      HoldsTests(ring[..], top, base, contents);
      if top == base { return None; }
      HoldsPop(ring[..], top, base, contents);
      top := (top + RANGE16 - 1) % RANGE16;
      p := Some(ring[Slot(top)]);
      contents := contents[..|contents| - 1];
    }

    /** Takes the oldest page. */
    method PopBase() returns (p: Option<nat>)
      requires Valid()
      modifies this`base, this`contents
      ensures Valid() && (p.None? <==> old(contents) == [])
      ensures if p.Some? then old(contents) == [p.value] + contents else contents == old(contents)
    {
      HoldsTests(ring[..], top, base, contents);
      if top == base { return None; }
      HoldsPopBase(ring[..], top, base, contents);
      p := Some(ring[Slot(base)]);
      base := (base + 1) % RANGE16;
      contents := contents[1..];
    }
  }

  // ---------------------------------------------------------------- the allocator

  /** Every known page is on the stack or handed out, not both, and on the stack only once. */
  ghost predicate Conserved(known: set<nat>, stack: seq<nat>, out: set<nat>) {
    && Distinct(stack)
    && forall p :: (p in known <==> p in stack || p in out) && !(p in stack && p in out)
  }

  /** So the pages on the stack and those handed out add up to all pages ever inserted. */
  lemma ConservedCount(known: set<nat>, stack: seq<nat>, out: set<nat>)
    requires Conserved(known, stack, out)
    ensures |stack| + |out| == |known|
  {
    assert Elements(stack) + out == known && Elements(stack) !! out;
  }

  lemma ConservedPush(known: set<nat>, stack: seq<nat>, out: set<nat>, p: nat)
    requires Conserved(known, stack, out) && (p in out || p !in known)
    ensures Conserved(known + {p}, stack + [p], out - {p})
  {
    assert p !in stack;
  }

  lemma ConservedPop(known: set<nat>, stack: seq<nat>, out: set<nat>, p: nat)
    requires Conserved(known, stack + [p], out)
    ensures Conserved(known, stack, out + {p}) && p !in out
  {
    var s := stack + [p];
    assert s[|stack|] == p && p in s;
    assert Distinct(stack) by {
      forall i, j | 0 <= i < j < |stack| ensures stack[i] != stack[j] { assert s[i] == stack[i] && s[j] == stack[j]; }
    }
    forall x ensures (x in known <==> x in stack || x in out + {p}) && !(x in stack && x in out + {p}) {
      assert x in s <==> x in stack || x == p;
      if x in stack {
        var i :| 0 <= i < |stack| && stack[i] == x;
        assert s[i] == x;
      }
    }
  }

  class Allocator {
    const stack: Stack
    /** The pages ever inserted, and those handed out and not freed since. */
    ghost var known: set<nat>
    ghost var out: set<nat>

    ghost predicate Valid()
      reads this, stack, stack.ring
    {
      stack.Valid() && Conserved(known, stack.contents, out)
    }

    constructor ()
      ensures Valid() && known == {} && out == {} && fresh(stack) && fresh(stack.ring)
    {
      stack := new Stack(0);
      known, out := {}, {};
    }

    /** Hands out a page that nobody holds; none only if the stack is empty, where the source stops. */
    method Alloc() returns (p: Option<nat>)
      requires Valid()
      modifies this`out, stack
      ensures Valid() && (p.None? <==> old(stack.contents) == [])
      ensures p.Some? ==> p.value in known && p.value !in old(out) && out == old(out) + {p.value}
      ensures p.None? ==> out == old(out)
    {
      p := stack.Pop();
      if p.Some? {
        ConservedPop(known, stack.contents, out, p.value);
        out := out + {p.value};
      }
    }

    /** Takes back a page that was handed out; fails only if the stack is full, where the source stops. */
    method Free(p: nat) returns (ok: bool)
      requires Valid() && p in out
      modifies this`out, stack, stack.ring
      ensures Valid() && out == (if ok then old(out) - {p} else old(out))
              && (ok <==> |old(stack.contents)| < STACK_SIZE)
    {
      ghost var s := stack.contents;
      ok := stack.Push(p);
      if ok {
        ConservedPush(known, s, out, p);
        assert known + {p} == known;
        out := out - {p};
      }
    }

    /** Adds a page that the allocator has not seen. */
    method Insert(p: nat) returns (ok: bool)
      requires Valid() && p !in known
      modifies this`known, stack, stack.ring
      ensures Valid() && known == (if ok then old(known) + {p} else old(known))
              && (ok <==> |old(stack.contents)| < STACK_SIZE)
    {
      ghost var s := stack.contents;
      ok := stack.Push(p);
      if ok {
        ConservedPush(known, s, out, p);
        assert out - {p} == out;
        known := known + {p};
      }
    }
  }
}
