/**
  Free-running positions and the slots of a ring.

  A queue of `depth` entries is read and written at positions 0, 1, 2, ...  A position is stored
  in slot `position % depth`, and the phase tag of an entry says in which lap it was written:
  1 in the even laps and 0 in the odd ones.  A zeroed ring therefore looks as if it had been
  written one lap before position 0, which is why negative positions are allowed here.
*/
module Ring {

  function Slot(k: int, depth: nat): (slot: nat)
    requires 0 < depth
    ensures slot < depth
  {
    k % depth
  }

  function Phase(k: int, depth: nat): (phase: nat)
    requires 0 < depth
    ensures phase <= 1
  {
    if (k / depth) % 2 == 0 then 1 else 0
  }

  lemma Multiple(m: int, depth: nat)
    requires 0 < depth
    ensures m > 0 ==> m * depth >= depth
    ensures m < 0 ==> m * depth <= -(depth as int)
  {
    if m > 0 {
      assert (m - 1) * depth >= 0;
    } else if m < 0 {
      assert (-m - 1) * depth >= 0;
    }
  }

  lemma SameQuotient(q: int, r: nat, q': int, r': nat, depth: nat)
    requires 0 < depth && r < depth && r' < depth
    requires q * depth + r == q' * depth + r'
    ensures q == q' && r == r'
  {
    assert (q' - q) * depth == r - r';
    Multiple(q' - q, depth);
  }

  /** The quotient and the remainder are the only pair that puts `k` back together. */
  lemma DivModUnique(k: int, depth: nat, q: int, r: nat)
    requires 0 < depth && r < depth && k == q * depth + r
    ensures k / depth == q && k % depth == r
  {
    SameQuotient(q, r, k / depth, k % depth, depth);
  }

  /** One step of a head or tail index, with the phase flipped exactly on the wrap. */
  lemma Next(k: int, depth: nat)
    requires 0 < depth
    ensures Slot(k + 1, depth) == (Slot(k, depth) + 1) % depth
    ensures Slot(k + 1, depth) == if Slot(k, depth) + 1 == depth then 0 else Slot(k, depth) + 1
    ensures Phase(k + 1, depth) == if Slot(k + 1, depth) == 0 then 1 - Phase(k, depth) else Phase(k, depth)
  {
    var q, r := k / depth, k % depth;
    assert k == q * depth + r;
    if r + 1 == depth {
      assert k + 1 == (q + 1) * depth + 0 by { assert (q + 1) * depth == q * depth + depth; }
      DivModUnique(k + 1, depth, q + 1, 0);
      DivModUnique(r + 1, depth, 1, 0);
    } else {
      DivModUnique(k + 1, depth, q, r + 1);
      DivModUnique(r + 1, depth, 0, r + 1);
    }
  }

  /** One lap earlier: the same slot, the other phase. */
  lemma Lap(k: int, depth: nat)
    requires 0 < depth
    ensures Slot(k - depth, depth) == Slot(k, depth)
    ensures Phase(k - depth, depth) == 1 - Phase(k, depth)
  {
    var q, r := k / depth, k % depth;
    assert k - depth == (q - 1) * depth + r by { assert (q - 1) * depth == q * depth - depth; }
    DivModUnique(k - depth, depth, q - 1, r);
  }

  lemma Spread(q: int, q': int, r: nat, depth: nat)
    requires 0 < depth
    ensures var gap := (q' * depth + r) - (q * depth + r); gap <= 0 || gap >= depth
  {
    assert (q' * depth + r) - (q * depth + r) == (q' - q) * depth;
    Multiple(q' - q, depth);
  }

  /** Inside one lap different positions use different slots. */
  lemma Distinct(i: int, j: int, depth: nat)
    requires 0 < depth && i < j < i + depth
    ensures Slot(i, depth) != Slot(j, depth)
  {
    if Slot(i, depth) == Slot(j, depth) {
      var q, r, q' := i / depth, i % depth, j / depth;
      assert i == q * depth + r && j == q' * depth + r;
      Spread(q, q', r, depth);
    }
  }

  /** Before position 0 lies the zeroed lap. */
  lemma ZeroLap(k: int, depth: nat)
    requires 0 < depth && -(depth as int) <= k < 0
    ensures Phase(k, depth) == 0
  {
    assert k == (-1) * depth + (k + depth);
    DivModUnique(k, depth, -1, k + depth);
  }

  lemma Start(depth: nat)
    requires 0 < depth
    ensures Slot(0, depth) == 0 && Phase(0, depth) == 1
  {
    DivModUnique(0, depth, 0, 0);
  }
}
