/** permute_args of lib/util/getopt_long.c: exchanging two adjacent blocks of an array in place by
    following gcd-many cycles. */
module PermuteArgs {

  // ----- Greatest common divisor -----

  function Gcd(a: nat, b: nat): nat
    requires b > 0
    decreases b
  {
    if a % b == 0 then b else Gcd(b, a % b)
  }

  ghost predicate Divides(d: int, x: int) {
    exists k :: k * d == x
  }

  lemma DividesSum(d: int, x: int, y: int, q: int)
    requires Divides(d, x) && Divides(d, y)
    ensures Divides(d, q * x + y)
  {
    var k, l :| k * d == x && l * d == y;
    assert (q * k + l) * d == q * (k * d) + l * d;
  }

  /** Gcd divides both numbers and is a combination of them, so that every common divisor divides it. */
  lemma {:induction false} GcdProperty(a: nat, b: nat) returns (x: int, y: int)
    requires b > 0
    ensures 0 < Gcd(a, b) <= b
    ensures x * a + y * b == Gcd(a, b)
    ensures Divides(Gcd(a, b), a) && Divides(Gcd(a, b), b)
    decreases b
  {
    var q, c := a / b, a % b;
    assert a == q * b + c;
    if c == 0 {
      x, y := 0, 1;
      assert q * b == a && 1 * b == b;
    } else {
      var x', y' := GcdProperty(b, c);
      x, y := y', x' - y' * q;
      DividesSum(Gcd(b, c), b, c, q);
      calc {
        x * a + y * b;
        y' * a + (x' - y' * q) * b;
        y' * (q * b + c) + (x' - y' * q) * b;
        { Expand(x', y', q, b, c); }
        x' * b + y' * c;
      }
    }
  }

  lemma Expand(x: int, y: int, q: int, b: int, c: int)
    ensures y * (q * b + c) + (x - y * q) * b == x * b + y * c
  {
    assert y * (q * b + c) == y * q * b + y * c;
    assert (x - y * q) * b == x * b - y * q * b;
  }

  lemma GcdIsGreatest(a: nat, b: nat, d: nat)
    requires b > 0
    ensures Divides(Gcd(a, b), a) && Divides(Gcd(a, b), b)
    ensures d > 0 && Divides(d, a) && Divides(d, b) ==> Divides(d, Gcd(a, b)) && d <= Gcd(a, b)
  {
    var x, y := GcdProperty(a, b);
    if d > 0 && Divides(d, a) && Divides(d, b) {
      assert Divides(d, y * b) by {
        assert Divides(d, 0) by { assert 0 * d == 0; }
        DividesSum(d, b, 0, y);
      }
      DividesSum(d, a, y * b, x);
      var k :| k * d == Gcd(a, b);
      assert k >= 1;
    }
  }

  method ComputeGcd(a: nat, b: nat) returns (g: nat)
    requires b > 0
    ensures g == Gcd(a, b)
  {
    var a', b' := a, b;
    var c := a' % b';
    while c != 0
      invariant b' > 0 && c == a' % b'
      invariant Gcd(a', b') == Gcd(a, b)
      decreases b'
    {
      a' := b';
      b' := c;
      c := a' % b';
    }
    return b';
  }

  // ----- The cycles of a rotation -----

  /** Where the element at offset p goes when blocks of n and m elements are exchanged. */
  function Next(n: nat, m: nat, p: nat): nat
    requires p < n + m
  {
    if p >= n then p - n else p + m
  }

  function Orbit(n: nat, m: nat, c: nat, k: nat): (p: nat)
    requires c < n + m
    ensures p < n + m
  {
    if k == 0 then c else Next(n, m, Orbit(n, m, c, k - 1))
  }

  /** The orbit is c + k * m, reduced modulo n + m. */
  lemma {:induction false} OrbitIsSum(n: nat, m: nat, c: nat, k: nat) returns (w: int)
    requires c < n + m
    ensures Orbit(n, m, c, k) == c + k * m - w * (n + m)
  {
    if k == 0 {
      w := 0;
    } else {
      var w' := OrbitIsSum(n, m, c, k - 1);
      w := if Orbit(n, m, c, k - 1) >= n then w' + 1 else w';
      Distribute(k - 1, 1, m);
      Distribute(w', 1, n + m);
    }
  }

  /** The arithmetic of the two block lengths: g cycles of length len. */
  ghost predicate CycleShape(n: nat, m: nat, g: nat, len: nat, m': int, u: int, w: int) {
    g > 0 && len > 0 && n + m == g * len && m == g * m' && u * m == g + w * (n + m)
  }

  lemma BlockShape(n: nat, m: nat) returns (len: nat, m': int, u: int, w: int)
    requires m > 0
    ensures CycleShape(n, m, Gcd(n, m), len, m', u, w)
    ensures (n + m) / Gcd(n, m) == len && n % Gcd(n, m) == 0
  {
    var g := Gcd(n, m);
    var x, y := GcdProperty(n, m);
    var n' :| n' * g == n;
    var k :| k * g == m;
    m' := k;
    u, w := y - x, -x;
    BezoutModSum(n, m, g, x, y);
    assert (n' + k) * g == n + m by { Distribute(n', k, g); }
    Quotient(n + m, g, n' + k);
    Quotient(n, g, n');
    len := n' + k;
    assert len > 0 by { if len == 0 { assert 0 * g == 0; } }
    assert g * len == len * g && g * m' == k * g;
  }

  lemma BezoutModSum(n: int, m: int, g: int, x: int, y: int)
    requires x * n + y * m == g
    ensures (y - x) * m == g + (-x) * (n + m)
  {
  }

  lemma Distribute(a: int, b: int, c: int)
    ensures (a + b) * c == a * c + b * c
    ensures (a - b) * c == a * c - b * c
  {
  }

  lemma Associate(a: int, b: int, c: int)
    ensures a * (b * c) == (a * b) * c == b * (a * c) == (a * c) * b
  {
  }

  lemma MulBounds(t: int, modulus: nat)
    ensures t >= 1 ==> t * modulus >= modulus
    ensures t <= -1 ==> t * modulus + modulus <= 0
  {
  }

  lemma Quotient(x: nat, g: nat, k: int)
    requires g > 0 && k * g == x
    ensures x / g == k && x % g == 0 && k >= 0
  {
    var q, r := x / g, x % g;
    Distribute(k, q, g);
    MulBounds(k - q, g);
    MulBounds(k, g);
  }

  lemma SameResidue(x: int, y: int, t: int, modulus: nat)
    requires 0 <= x < modulus && 0 <= y < modulus && x == y + t * modulus
    ensures x == y && t == 0
  {
    MulBounds(t, modulus);
  }

  lemma OrbitCloses(n: nat, m: nat, g: nat, len: nat, m': int, u: int, w: int, c: nat)
    requires CycleShape(n, m, g, len, m', u, w) && c < n + m
    ensures Orbit(n, m, c, len) == c
  {
    var v := OrbitIsSum(n, m, c, len);
    hide Orbit;
    assert len * m == m' * (n + m) by { Regroup(len, g, m', m, n + m); }
    Distribute(m', v, n + m);
    SameResidue(Orbit(n, m, c, len), c, m' - v, n + m);
  }

  lemma Regroup(len: int, g: int, m': int, m: int, modulus: int)
    requires modulus == g * len && m == g * m'
    ensures len * m == m' * modulus
  {
    Associate(len, g, m');
  }

  /** The orbit comes back to a slot only after multiples of len steps. */
  lemma OrbitRepeats(n: nat, m: nat, g: nat, len: nat, m': int, u: int, w: int, c: nat, j: nat, k: nat) returns (e: int)
    requires CycleShape(n, m, g, len, m', u, w) && c < n + m
    requires Orbit(n, m, c, j) == Orbit(n, m, c, k)
    ensures k - j == e * len
  {
    var v := OrbitIsSum(n, m, c, j);
    var v' := OrbitIsSum(n, m, c, k);
    Distribute(k, j, m);
    Distribute(v', v, n + m);
    e := MultipleOfLength(n + m, m, g, len, u, w, k - j, v' - v);
  }

  lemma MultipleOfLength(modulus: nat, m: nat, g: nat, len: nat, u: int, w: int, d: int, t: int) returns (e: int)
    requires g > 0 && modulus == g * len && u * m == g + w * modulus && d * m == t * modulus
    ensures d == e * len
  {
    e := u * t - d * w;
    Associate(d, u, m);
    Associate(u, t, modulus);
    Associate(d, w, modulus);
    Distribute(g, w * modulus, d);
    Distribute(u * t, d * w, modulus);
    assert d * g == e * modulus;
    Associate(e, g, len);
    Cancel(d, e * len, g);
  }

  lemma Cancel(x: int, y: int, g: nat)
    requires g > 0 && x * g == y * g
    ensures x == y
  {
    Distribute(x, y, g);
    MulBounds(x - y, g);
  }

  /** t steps of g are t * u steps of m, and those can be reduced modulo len. */
  lemma StepsOfG(modulus: nat, m: nat, g: nat, len: nat, m': int, u: int, w: int, t: int, r: int, k: int)
    requires modulus == g * len && m == g * m' && u * m == g + w * modulus && t * u == r * len + k
    ensures t * g == k * m + (r * m' - t * w) * modulus
  {
    Associate(t, u, m);
    Associate(t, w, modulus);
    Distribute(g, w * modulus, t);
    Distribute(r * len, k, m);
    assert r * len * m == r * m' * modulus by {
      Associate(len, g, m');
      Associate(r, len, m);
      Associate(r, m', modulus);
    }
    Distribute(r * m', t * w, modulus);
  }

  lemma OrbitCovers(n: nat, m: nat, g: nat, len: nat, m': int, u: int, w: int, c: nat, q: nat, t: int) returns (k: nat)
    requires CycleShape(n, m, g, len, m', u, w) && c < n + m && q < n + m
    requires q == c + t * g
    ensures k < len && Orbit(n, m, c, k) == q
  {
    var tu := t * u;
    var r := tu / len;
    k := tu % len;
    assert tu == r * len + k;
    var v := OrbitIsSum(n, m, c, k);
    StepsOfG(n + m, m, g, len, m', u, w, t, r, k);
    var e := r * m' - t * w;
    Distribute(e, v, n + m);
    SameResidue(q, Orbit(n, m, c, k), e + v, n + m);
  }

  lemma OrbitKeepsClass(n: nat, m: nat, g: nat, len: nat, m': int, u: int, w: int, c: nat, k: nat) returns (t: int)
    requires CycleShape(n, m, g, len, m', u, w) && c < n + m
    ensures Orbit(n, m, c, k) == c + t * g
  {
    var v := OrbitIsSum(n, m, c, k);
    t := k * m' - v * len;
    Associate(k, g, m');
    Associate(v, g, len);
    Distribute(k * m', v * len, g);
  }

  /** A cycle of the rotation: its slots in the order in which they are visited. */
  ghost predicate IsCycle(n: nat, m: nat, cycle: seq<nat>) {
    && |cycle| > 0
    && (forall k :: 0 <= k < |cycle| ==> cycle[k] < n + m)
    && (forall j, k :: 0 <= j < k < |cycle| ==> cycle[j] != cycle[k])
    && (forall k {:trigger Next(n, m, cycle[k])} :: 0 <= k < |cycle| - 1 ==> Next(n, m, cycle[k]) == cycle[k + 1])
    && Next(n, m, cycle[|cycle| - 1]) == cycle[0]
  }

  /** The cycle started at n + i visits exactly the slots that are i modulo the gcd, once each. */
  lemma CycleOf(n: nat, m: nat, i: nat) returns (cycle: seq<nat>)
    requires m > 0 && i < Gcd(n, m)
    ensures IsCycle(n, m, cycle) && |cycle| == (n + m) / Gcd(n, m) && n + i < n + m && cycle[0] == n + i
    ensures forall q :: 0 <= q < n + m ==> (q in cycle <==> Class(Gcd(n, m), q) == i)
  {
    var g := Gcd(n, m);
    var _, _ := GcdProperty(n, m);
    var len, m', u, w := BlockShape(n, m);
    hide Gcd;
    cycle := seq(len, k requires 0 <= k => Orbit(n, m, n + i, k));
    OrbitCloses(n, m, g, len, m', u, w, n + i);
    forall j, k | 0 <= j < k < len ensures cycle[j] != cycle[k] {
      if cycle[j] == cycle[k] {
        var e := OrbitRepeats(n, m, g, len, m', u, w, n + i, j, k);
        MulBounds(e, len);
      }
    }
    forall k {:trigger Next(n, m, cycle[k])} | 0 <= k < len - 1 ensures Next(n, m, cycle[k]) == cycle[k + 1] {
      assert Orbit(n, m, n + i, k + 1) == Next(n, m, Orbit(n, m, n + i, k));
    }
    assert Orbit(n, m, n + i, len) == Next(n, m, Orbit(n, m, n + i, len - 1));
    forall q | 0 <= q < n + m ensures q in cycle <==> Class(g, q) == i {
      ClassOf(n, m, g, len, m', u, w, i, q, cycle);
    }
  }

  lemma QuotientAndResidue(q: nat, g: nat)
    requires g > 0
    ensures q == q / g * g + q % g
  {
  }

  lemma ResidueOfSum(n': int, t: int, g: nat, q: nat, i: nat)
    requires i < g && q == n' * g + i + t * g
    ensures q % g == i
  {
    var q' := q / g;
    QuotientAndResidue(q, g);
    Distribute(n', t, g);
    Distribute(n' + t, q', g);
    SameResidue(q % g, i, n' + t - q', g);
  }

  lemma ClassIsVisited(n: nat, m: nat, g: nat, len: nat, m': int, u: int, w: int, i: nat, n': int, q: nat)
    returns (k: nat)
    requires CycleShape(n, m, g, len, m', u, w) && g > 0 && n == n' * g && n + i < n + m && q < n + m && q % g == i
    ensures k < len && Orbit(n, m, n + i, k) == q
  {
    var q' := q / g;
    QuotientAndResidue(q, g);
    hide CycleShape, Orbit;
    Distribute(q', n', g);
    k := OrbitCovers(n, m, g, len, m', u, w, n + i, q, q' - n');
  }

  lemma VisitedIsClass(n: nat, m: nat, g: nat, len: nat, m': int, u: int, w: int, i: nat, n': int, k: nat)
    requires CycleShape(n, m, g, len, m', u, w) && i < g && n == n' * g && n + i < n + m
    ensures Orbit(n, m, n + i, k) % g == i
  {
    hide CycleShape, Orbit;
    var t := OrbitKeepsClass(n, m, g, len, m', u, w, n + i, k);
    ResidueOfSum(n', t, g, Orbit(n, m, n + i, k), i);
  }

  lemma ClassOf(n: nat, m: nat, g: nat, len: nat, m': int, u: int, w: int, i: nat, q: nat, cycle: seq<nat>)
    requires CycleShape(n, m, g, len, m', u, w) && n % g == 0 && i < g && n + i < n + m && q < n + m
    requires |cycle| == len && forall k :: 0 <= k < len ==> cycle[k] == Orbit(n, m, n + i, k)
    ensures q in cycle <==> q % g == i
  {
    var n' := n / g;
    QuotientAndResidue(n, g);
    hide CycleShape, Orbit;
    if q % g == i {
      var k := ClassIsVisited(n, m, g, len, m', u, w, i, n', q);
      assert cycle[k] == q;
    }
    if q in cycle {
      var k :| 0 <= k < len && cycle[k] == q;
      VisitedIsClass(n, m, g, len, m', u, w, i, n', k);
    }
  }

  // ----- The exchange -----

  function Exchanged<T>(s: seq<T>, lo: nat, mid: nat, hi: nat): (r: seq<T>)
    requires lo <= mid <= hi <= |s|
    ensures |r| == |s|
  {
    s[..lo] + s[mid..hi] + s[lo..mid] + s[hi..]
  }

  lemma NextInCycle(n: nat, m: nat, cycle: seq<nat>, j: nat) returns (next: nat)
    requires IsCycle(n, m, cycle) && j < |cycle|
    ensures next == Next(n, m, cycle[j]) && next == if j + 1 < |cycle| then cycle[j + 1] else cycle[0]
  {
    next := Next(n, m, cycle[j]);
  }

  /** Which slot's element the k-th slot of a cycle holds after j steps. */
  function Source(cycle: seq<nat>, j: nat, k: nat): nat
    requires k < |cycle|
  {
    if k == 0 then cycle[if j < |cycle| then j else |cycle| - 1]
    else if k <= j then cycle[k - 1]
    else cycle[k]
  }

  /** The first j steps of a cycle have been taken; its first slot holds the element on the way. */
  ghost predicate Followed<T>(was: seq<T>, now: seq<T>, lo: nat, cycle: seq<nat>, j: nat)
    requires |now| == |was| && forall k :: 0 <= k < |cycle| ==> lo + cycle[k] < |was|
  {
    && (forall k {:trigger Source(cycle, j, k)} :: 0 <= k < |cycle| ==>
        now[lo + cycle[k]] == was[lo + Source(cycle, j, k)])
    && (forall q :: 0 <= q < |was| && q - lo !in cycle ==> now[q] == was[q])
  }

  lemma FollowStep<T>(was: seq<T>, now: seq<T>, lo: nat, cycle: seq<nat>, j: nat, next: nat)
    requires |now| == |was| && j < |cycle| && forall k :: 0 <= k < |cycle| ==> lo + cycle[k] < |was|
    requires forall i, k :: 0 <= i < k < |cycle| ==> cycle[i] != cycle[k]
    requires next == if j + 1 < |cycle| then cycle[j + 1] else cycle[0]
    requires Followed(was, now, lo, cycle, j)
    ensures var (pos, cstart) := (lo + next, lo + cycle[0]);
            Followed(was, now[pos := now[cstart]][cstart := now[pos]], lo, cycle, j + 1)
  {
    var pos, cstart := lo + next, lo + cycle[0];
    var now' := now[pos := now[cstart]][cstart := now[pos]];
    assert next in cycle && cycle[0] in cycle;
    forall k {:trigger Source(cycle, j + 1, k)} | 0 <= k < |cycle|
      ensures now'[lo + cycle[k]] == was[lo + Source(cycle, j + 1, k)]
    {
      assert now[lo + cycle[k]] == was[lo + Source(cycle, j, k)] && now[cstart] == was[lo + Source(cycle, j, 0)];
      if k == 0 && j + 1 < |cycle| {
        assert now[pos] == was[lo + Source(cycle, j, j + 1)];
      } else if k != 0 && k != j + 1 {
        assert cycle[k] != cycle[0] && cycle[k] != next;
      }
    }
  }

  method Swap<T>(nargv: array<T>, pos: nat, cstart: nat)
    requires pos < nargv.Length && cstart < nargv.Length
    modifies nargv
    ensures nargv[..] == old(nargv[..])[pos := old(nargv[cstart])][cstart := old(nargv[pos])]
  {
    var swap := nargv[pos];
    nargv[pos] := nargv[cstart];
    nargv[cstart] := swap;
  }

  /** The inner loop: one cycle, started at cstart. */
  method FollowCycle<T>(nargv: array<T>, lo: nat, n: nat, m: nat, cstart: nat, cyclelen: nat, ghost cycle: seq<nat>)
    requires lo + n + m <= nargv.Length
    requires IsCycle(n, m, cycle) && |cycle| == cyclelen && cstart == lo + cycle[0]
    modifies nargv
    ensures Followed(old(nargv[..]), nargv[..], lo, cycle, cyclelen)
  {
    ghost var was := nargv[..];
    var pos := cstart;
    var j := 0;
    while j < cyclelen
      invariant 0 <= j <= cyclelen
      invariant pos == lo + (if j < cyclelen then cycle[j] else cycle[0])
      invariant Followed(was, nargv[..], lo, cycle, j)
    {
      ghost var now := nargv[..];
      ghost var next := NextInCycle(n, m, cycle, j);
      hide Source, Followed;
      FollowStep(was, now, lo, cycle, j, next);
      if pos >= lo + n {
        pos := pos - n;
      } else {
        pos := pos + m;
      }
      Swap(nargv, pos, cstart);
      j := j + 1;
    }
  }

  /** Exchanges nargv[start..end) with nargv[end..optEnd), keeping the order within each block.
      The second block must not be empty: gcd divides by its length. */
  method PermuteArgs<T>(start: nat, end: nat, optEnd: nat, nargv: array<T>)
    requires start <= end < optEnd <= nargv.Length
    modifies nargv
    ensures nargv[..] == Exchanged(old(nargv[..]), start, end, optEnd)
  {
    ghost var was := nargv[..];
    var nnonopts := end - start;
    var nopts := optEnd - end;
    var ncycle := ComputeGcd(nnonopts, nopts);
    ghost var _, _ := GcdProperty(nnonopts, nopts);
    var cyclelen := (optEnd - start) / ncycle;
    for i := 0 to ncycle
      invariant Moved(was, nargv[..], start, nnonopts, nopts, ncycle, i)
    {
      ghost var before := nargv[..];
      ghost var cycle := CycleOf(nnonopts, nopts, i);
      FollowCycle(nargv, start, nnonopts, nopts, end + i, cyclelen, cycle);
      MoveClass(was, before, nargv[..], start, nnonopts, nopts, ncycle, i, cycle);
    }
    AllMoved(was, nargv[..], start, nnonopts, nopts, ncycle);
  }

  function Class(g: nat, p: nat): nat
    requires g > 0
  {
    p % g
  }

  /** The classes below i have been moved, nothing else has. */
  ghost predicate Moved<T>(was: seq<T>, now: seq<T>, lo: nat, n: nat, m: nat, g: nat, i: nat)
    requires g > 0 && lo + n + m <= |was|
  {
    && |now| == |was|
    && (forall p :: 0 <= p < n + m && Class(g, p) < i ==> now[lo + Next(n, m, p)] == was[lo + p])
    && (forall p :: 0 <= p < n + m && Class(g, p) >= i ==> now[lo + p] == was[lo + p])
    && (forall q :: 0 <= q < |was| && !(lo <= q < lo + n + m) ==> now[q] == was[q])
  }

  lemma PredecessorInCycle(n: nat, m: nat, cycle: seq<nat>, p: nat)
    requires IsCycle(n, m, cycle) && p < n + m
    ensures Next(n, m, p) in cycle <==> p in cycle
  {
    if p in cycle {
      var k :| 0 <= k < |cycle| && cycle[k] == p;
      assert k < |cycle| - 1 ==> Next(n, m, cycle[k]) == cycle[k + 1];
    }
    if Next(n, m, p) in cycle {
      var k :| 0 <= k < |cycle| && cycle[k] == Next(n, m, p);
      var j := if k == 0 then |cycle| - 1 else k - 1;
      assert Next(n, m, cycle[j]) == cycle[k];
      assert p == cycle[j];
    }
  }

  lemma FollowedAll<T>(was: seq<T>, now: seq<T>, lo: nat, n: nat, m: nat, cycle: seq<nat>, p: nat)
    requires IsCycle(n, m, cycle) && |now| == |was| && lo + n + m <= |was| && p in cycle
    requires Followed(was, now, lo, cycle, |cycle|)
    ensures now[lo + Next(n, m, p)] == was[lo + p]
  {
    var k :| 0 <= k < |cycle| && cycle[k] == p;
    if k < |cycle| - 1 {
      assert Next(n, m, cycle[k]) == cycle[k + 1];
      assert now[lo + cycle[k + 1]] == was[lo + Source(cycle, |cycle|, k + 1)];
    } else {
      assert now[lo + cycle[0]] == was[lo + Source(cycle, |cycle|, 0)];
    }
  }

  lemma MoveClass<T>(was: seq<T>, before: seq<T>, now: seq<T>, lo: nat, n: nat, m: nat, g: nat, i: nat, cycle: seq<nat>)
    requires g > 0 && lo + n + m <= |was| && Moved(was, before, lo, n, m, g, i) && |now| == |was|
    requires IsCycle(n, m, cycle) && forall q :: 0 <= q < n + m ==> (q in cycle <==> Class(g, q) == i)
    requires Followed(before, now, lo, cycle, |cycle|)
    ensures Moved(was, now, lo, n, m, g, i + 1)
  {
    hide Class;
    forall p | 0 <= p < n + m && Class(g, p) < i + 1
      ensures now[lo + Next(n, m, p)] == was[lo + p]
    {
      PredecessorInCycle(n, m, cycle, p);
      if p in cycle {
        FollowedAll(before, now, lo, n, m, cycle, p);
      }
    }
  }

  lemma AllMoved<T>(was: seq<T>, now: seq<T>, lo: nat, n: nat, m: nat, g: nat)
    requires g > 0 && lo + n + m <= |was| && Moved(was, now, lo, n, m, g, g)
    ensures now == Exchanged(was, lo, lo + n, lo + n + m)
  {
    var r := Exchanged(was, lo, lo + n, lo + n + m);
    forall q | 0 <= q < |was| ensures now[q] == r[q] {
      if lo <= q < lo + m {
        assert Next(n, m, q - lo + n) == q - lo;
      } else if lo + m <= q < lo + n + m {
        assert Next(n, m, q - lo - m) == q - lo;
      }
    }
  }
}
