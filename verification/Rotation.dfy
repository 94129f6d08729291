/** What rotating a family of files does to the log it holds. A file is the sequence of the
    blocks written to it; file 0 is the newest. */
module Rotation {
  import opened Options
  import opened FileNames
  import opened Sequences

  type Blocks = seq<string>

  type Files = map<string, Blocks>

  function Size(b: Blocks): nat {
    if b == [] then 0 else Size(b[..|b| - 1]) + |b[|b| - 1]|
  }

  function Slot(f: Files, base: string, i: nat): Option<Blocks> {
    if CalcFilename(base, i) in f then Some(f[CalcFilename(base, i)]) else None
  }

  function Content(f: Files, base: string, i: nat): Blocks {
    if CalcFilename(base, i) in f then f[CalcFilename(base, i)] else []
  }

  // The whole log: the files n down to 0, concatenated. Missing files contribute nothing.
  function Family(f: Files, base: string, n: nat): Blocks {
    Content(f, base, n) + if n == 0 then [] else Family(f, base, n - 1)
  }

  predicate InFamily(name: string, base: string, n: nat) {
    exists i :: 0 <= i <= n && name == CalcFilename(base, i)
  }

  // f and g agree on all files outside the family 0..n.
  ghost predicate SameOutside(f: Files, g: Files, base: string, n: nat) {
    forall name {:trigger name in g} {:trigger g[name]} :: !InFamily(name, base, n) ==>
      (name in f <==> name in g) && (name in f ==> f[name] == g[name])
  }

  ghost predicate IsSuffix<T>(a: seq<T>, b: seq<T>) {
    |a| <= |b| && b[|b| - |a|..] == a
  }

  // a can be obtained from b by deleting elements.
  predicate Subsequence<T(==)>(a: seq<T>, b: seq<T>)
    decreases |b|
  {
    if a == [] then true
    else if b == [] then false
    else
      || (a[|a| - 1] == b[|b| - 1] && Subsequence(a[..|a| - 1], b[..|b| - 1]))
      || Subsequence(a, b[..|b| - 1])
  }

  lemma WritingFile0(f: Files, base: string, n: nat, b: Blocks)
    ensures SameOutside(f, f[base := b], base, n)
  {
    assert CalcFilename(base, 0) == base;
  }

  lemma {:induction false} SubsequenceRefl<T>(a: seq<T>)
    ensures Subsequence(a, a)
  {
    if a != [] {
      SubsequenceRefl(a[..|a| - 1]);
    }
  }

  lemma {:induction false} SubsequenceTrans<T>(a: seq<T>, b: seq<T>, c: seq<T>)
    requires Subsequence(a, b) && Subsequence(b, c)
    ensures Subsequence(a, c)
    decreases |b| + |c|
  {
    if a != [] {
      var b', c' := b[..|b| - 1], c[..|c| - 1];
      if b[|b| - 1] == c[|c| - 1] && Subsequence(b', c') {
        if a[|a| - 1] == b[|b| - 1] && Subsequence(a[..|a| - 1], b') {
          SubsequenceTrans(a[..|a| - 1], b', c');
        } else {
          SubsequenceTrans(a, b', c');
        }
      } else {
        SubsequenceTrans(a, b, c');
      }
    }
  }

  lemma SubsequenceSnoc<T>(a: seq<T>, b: seq<T>, x: T)
    requires Subsequence(a, b)
    ensures Subsequence(a, b + [x]) && Subsequence(a + [x], b + [x])
  {
    assert (b + [x])[..|b|] == b && (a + [x])[..|a|] == a;
  }

  lemma {:induction false} SubsequenceConcat<T>(a: seq<T>, b: seq<T>, c: seq<T>, d: seq<T>)
    requires Subsequence(a, c) && Subsequence(b, d)
    ensures Subsequence(a + b, c + d)
    decreases |d|
  {
    if d == [] {
      assert a + b == a && c + d == c;
    } else {
      var d' := d[..|d| - 1];
      assert c + d == (c + d') + [d[|d| - 1]];
      if b != [] && b[|b| - 1] == d[|d| - 1] && Subsequence(b[..|b| - 1], d') {
        SubsequenceConcat(a, b[..|b| - 1], c, d');
        assert a + b == (a + b[..|b| - 1]) + [b[|b| - 1]];
        SubsequenceSnoc(a + b[..|b| - 1], c + d', d[|d| - 1]);
      } else {
        SubsequenceConcat(a, b, c, d');
        SubsequenceSnoc(a + b, c + d', d[|d| - 1]);
      }
    }
  }

  lemma ConcatSuffix<T>(a: seq<T>, b: seq<T>)
    ensures IsSuffix(b, a + b) && Subsequence(b, a + b)
  {
    SubsequenceRefl(b);
    SubsequenceConcat([], b, a, b);
    assert [] + b == b;
  }

  lemma SuffixSnoc<T>(a: seq<T>, b: seq<T>, x: T)
    requires IsSuffix(a, b)
    ensures IsSuffix(a + [x], b + [x])
  {
  }

  lemma SuffixTrans<T>(a: seq<T>, b: seq<T>, c: seq<T>)
    requires IsSuffix(a, b) && IsSuffix(b, c)
    ensures IsSuffix(a, c)
  {
  }

  lemma SuffixIsSubsequence<T>(a: seq<T>, b: seq<T>)
    requires IsSuffix(a, b)
    ensures Subsequence(a, b)
  {
    ConcatSuffix(b[..|b| - |a|], a);
    assert b[..|b| - |a|] + a == b;
  }

  // ---------- renaming ----------

  // g is f after the renames j - 1 -> j have succeeded for all j from n down to k + 1, skipping
  // the files that do not exist.
  ghost predicate Shifted(f: Files, g: Files, base: string, n: nat, k: nat) {
    && k <= n
    && (forall j :: 0 <= j < k ==> Slot(g, base, j) == Slot(f, base, j))
    && Slot(g, base, k) == (if k == n then Slot(f, base, k) else None)
    && (forall j :: k < j <= n ==>
          Slot(g, base, j) == if Slot(f, base, j - 1).Some? then Slot(f, base, j - 1)
                              else if j == n then Slot(f, base, n) else None)
  }

  ghost predicate OlderMovedUp(f: Files, g: Files, base: string, n: nat) {
    forall j :: 0 < j <= n ==>
      Slot(g, base, j) == if Slot(f, base, j - 1).Some? then Slot(f, base, j - 1)
                          else if j == n then Slot(f, base, n) else None
  }

  // g is f after a rotation in which nothing failed, with a new file 0.
  ghost predicate Rotated(f: Files, g: Files, base: string, n: nat, newest: Blocks) {
    Slot(g, base, 0) == Some(newest) && OlderMovedUp(f, g, base, n)
  }

  // g is f after a rotation that failed at the rename to file k, or after all renames if k is 0:
  // the files above k have moved up, those below are as before, file k may be gone, and file 0
  // may have been emptied.
  ghost predicate Stopped(f: Files, g: Files, base: string, n: nat, k: nat) {
    && k <= n
    && (forall j :: 0 < j < k ==> Slot(g, base, j) == Slot(f, base, j))
    && (0 < k ==> Slot(g, base, k) == None || (k == n && Slot(g, base, k) == Slot(f, base, k)))
    && (forall j :: k < j <= n ==>
          Slot(g, base, j) == if Slot(f, base, j - 1).Some? then Slot(f, base, j - 1)
                              else if j == n then Slot(f, base, n) else None)
    && (Slot(g, base, 0) == Some([]) || Slot(g, base, 0) == if k == 0 < n then None else Slot(f, base, 0))
  }

  lemma ContentOfSlot(f: Files, base: string, i: nat)
    ensures Content(f, base, i) == match Slot(f, base, i) case None => [] case Some(b) => b
  {
  }

  lemma {:induction false} FamilyFrame(f: Files, g: Files, base: string, n: nat)
    requires forall j :: 0 <= j <= n ==> Slot(g, base, j) == Slot(f, base, j)
    ensures Family(g, base, n) == Family(f, base, n)
  {
    ContentOfSlot(f, base, n);
    ContentOfSlot(g, base, n);
    if n > 0 {
      FamilyFrame(f, g, base, n - 1);
    }
  }

  // A file above k is the one that was below it, or empty like it.
  lemma ShiftedContent(f: Files, g: Files, base: string, n: nat, k: nat, m: nat)
    requires Shifted(f, g, base, n, k) && k < m < n
    ensures Content(g, base, m) == Content(f, base, m - 1)
  {
    ContentOfSlot(g, base, m);
    ContentOfSlot(f, base, m - 1);
  }

  // Below the top file, the shifted family is the old one without its own top file.
  lemma {:induction false} ShiftedBelowTop(f: Files, g: Files, base: string, n: nat, k: nat, m: nat)
    requires Shifted(f, g, base, n, k) && k <= m < n
    ensures Family(g, base, m) == if m == 0 then [] else Family(f, base, m - 1)
  {
    if m > k {
      ShiftedContent(f, g, base, n, k, m);
      ShiftedBelowTop(f, g, base, n, k, m - 1);
    } else {
      ContentOfSlot(g, base, m);
      if m > 0 {
        FamilyFrame(f, g, base, m - 1);
      }
    }
  }

  // Renaming loses at most the oldest file, and only if the next older one takes its place.
  lemma ShiftKeepsHistory(f: Files, g: Files, base: string, n: nat, k: nat)
    requires Shifted(f, g, base, n, k)
    ensures IsSuffix(Family(g, base, n), Family(f, base, n))
    ensures (n > 0 && Slot(f, base, n - 1).None?) || k == n ==> Family(g, base, n) == Family(f, base, n)
  {
    if k == n {
      FamilyFrame(f, g, base, n);
    } else {
      ShiftedBelowTop(f, g, base, n, k, n - 1);
      ContentOfSlot(g, base, n);
      ContentOfSlot(f, base, n);
      ContentOfSlot(f, base, n - 1);
      var oldest, next := Content(f, base, n), Content(f, base, n - 1);
      var rest := if n == 1 then [] else Family(f, base, n - 2);
      assert Family(f, base, n - 1) == next + rest;
      if Slot(f, base, n - 1).Some? {
        assert Family(g, base, n) == next + rest;
        ConcatSuffix(oldest, next + rest);
      } else {
        assert Family(g, base, n) == oldest + rest && next + rest == rest;
      }
    }
  }

  // One more rename takes the shift one file further down.
  lemma RenameExtendsShift(f: Files, g: Files, h: Files, base: string, n: nat, k: nat)
    requires 0 < k && Shifted(f, g, base, n, k)
    requires CalcFilename(base, k - 1) in g
    requires h == (g - {CalcFilename(base, k - 1)})[CalcFilename(base, k) := g[CalcFilename(base, k - 1)]]
    ensures Shifted(f, h, base, n, k - 1)
  {
    forall j: nat | j != k && j != k - 1 ensures Slot(h, base, j) == Slot(g, base, j) {
      if CalcFilename(base, j) == CalcFilename(base, k) { CalcFilenameInjective(base, j, k); }
      if CalcFilename(base, j) == CalcFilename(base, k - 1) { CalcFilenameInjective(base, j, k - 1); }
    }
    if CalcFilename(base, k) == CalcFilename(base, k - 1) { CalcFilenameInjective(base, k, k - 1); }
  }

  // A turn of the loop that finds no file to rename does so as well.
  lemma TurnExtendsShift(f: Files, g: Files, h: Files, base: string, n: nat, k: nat)
    requires 0 < k && Shifted(f, g, base, n, k)
    requires var src, target := CalcFilename(base, k - 1), CalcFilename(base, k);
             h == if src in g then (g - {src})[target := g[src]] else g
    ensures Shifted(f, h, base, n, k - 1)
  {
    if CalcFilename(base, k - 1) in g {
      RenameExtendsShift(f, g, h, base, n, k);
    } else {
      assert Slot(g, base, k - 1) == None == Slot(f, base, k - 1);
    }
  }

  // ---------- truncating file 0 ----------

  lemma TruncationFrame(f: Files, base: string, b: Blocks)
    ensures Slot(f[base := b], base, 0) == Some(b)
    ensures forall j: nat :: j > 0 ==> Slot(f[base := b], base, j) == Slot(f, base, j)
  {
    forall j: nat | j > 0 ensures Slot(f[base := b], base, j) == Slot(f, base, j) {
      if CalcFilename(base, j) == CalcFilename(base, 0) { CalcFilenameInjective(base, j, 0); }
    }
  }

  // The log without file 0.
  function Older(f: Files, base: string, n: nat): Blocks {
    if n == 0 then [] else Content(f, base, n) + Older(f, base, n - 1)
  }

  lemma {:induction false} FamilyParts(f: Files, base: string, n: nat)
    ensures Family(f, base, n) == Older(f, base, n) + Content(f, base, 0)
  {
    if n > 0 {
      FamilyParts(f, base, n - 1);
      Associative(Content(f, base, n), Older(f, base, n - 1), Content(f, base, 0));
    }
  }

  lemma {:induction false} OlderFrame(f: Files, base: string, b: Blocks, n: nat)
    ensures Older(f[base := b], base, n) == Older(f, base, n)
  {
    if n > 0 {
      TruncationFrame(f, base, b);
      ContentOfSlot(f, base, n);
      ContentOfSlot(f[base := b], base, n);
      OlderFrame(f, base, b, n - 1);
    }
  }

  // Replacing file 0 replaces the end of the log.
  lemma FamilyOfReplaced(f: Files, base: string, b: Blocks, n: nat)
    ensures Family(f, base, n) == Older(f, base, n) + Content(f, base, 0)
    ensures Family(f[base := b], base, n) == Older(f, base, n) + b
  {
    FamilyParts(f, base, n);
    FamilyParts(f[base := b], base, n);
    OlderFrame(f, base, b, n);
  }

  // Appending to file 0 appends to the log.
  lemma AppendExtendsFamily(f: Files, base: string, n: nat, block: string)
    requires base in f
    ensures Family(f[base := f[base] + [block]], base, n) == Family(f, base, n) + [block]
  {
    FamilyOfReplaced(f, base, f[base] + [block], n);
  }

  lemma TruncationLosesOnly(f: Files, base: string, n: nat)
    ensures Subsequence(Family(f[base := []], base, n), Family(f, base, n))
  {
    FamilyOfReplaced(f, base, [], n);
    SubsequenceRefl(Older(f, base, n));
    SubsequenceConcat(Older(f, base, n), [], Older(f, base, n), Content(f, base, 0));
  }

  lemma TruncatingNothing(g: Files, base: string, n: nat)
    requires Content(g, base, 0) == []
    ensures Family(g[base := []], base, n) == Family(g, base, n)
  {
    FamilyOfReplaced(g, base, [], n);
  }

  // A rotation whose renames all succeed, followed by starting a new file 0, leaves a suffix of
  // the log, whatever files of the family are missing and even if only file 0 is kept.
  lemma RotationKeepsHistory(f: Files, g: Files, base: string, n: nat)
    requires Shifted(f, g, base, n, 0)
    ensures IsSuffix(Family(g[base := []], base, n), Family(f, base, n))
  {
    if n > 0 {
      ShiftKeepsHistory(f, g, base, n, 0);
      ContentOfSlot(g, base, 0);
      TruncatingNothing(g, base, n);
    } else {
      TruncationFrame(g, base, []);
      ContentOfSlot(g[base := []], base, 0);
      assert Family(g[base := []], base, 0) == [];
    }
  }

  // Whatever is then written to file 0 leaves the older files where the renames put them.
  lemma File0Written(f: Files, g: Files, base: string, n: nat, b: Blocks)
    requires OlderMovedUp(f, g, base, n)
    ensures Rotated(f, g[base := b], base, n, b)
  {
    TruncationFrame(g, base, b);
    forall j: nat {:trigger Slot(g[base := b], base, j)} | 0 < j <= n
      ensures Slot(g[base := b], base, j) ==
              if Slot(f, base, j - 1).Some? then Slot(f, base, j - 1) else if j == n then Slot(f, base, n) else None
    {
      assert Slot(g[base := b], base, j) == Slot(g, base, j);
    }
  }

  lemma RemovalFrame(f: Files, base: string, k: nat)
    ensures Slot(f - {CalcFilename(base, k)}, base, k) == None
    ensures forall j: nat :: j != k ==> Slot(f - {CalcFilename(base, k)}, base, j) == Slot(f, base, j)
  {
    forall j: nat | j != k ensures Slot(f - {CalcFilename(base, k)}, base, j) == Slot(f, base, j) {
      if CalcFilename(base, j) == CalcFilename(base, k) { CalcFilenameInjective(base, j, k); }
    }
  }

  // What is left when the rename to file k has failed, which may have removed file k.
  lemma FailedRenameStops(f: Files, mid: Files, g: Files, base: string, n: nat, k: nat)
    requires 0 < k && Shifted(f, mid, base, n, k)
    requires g == mid || g == mid - {CalcFilename(base, k)}
    ensures Stopped(f, g, base, n, k)
  {
    RemovalFrame(mid, base, k);
  }

  lemma ShiftStops(f: Files, g: Files, base: string, n: nat)
    requires Shifted(f, g, base, n, 0)
    ensures Stopped(f, g, base, n, 0)
  {
  }

  // Emptying file 0 in the end makes no other difference.
  lemma EmptiedStops(f: Files, g: Files, base: string, n: nat, k: nat)
    requires Stopped(f, g, base, n, k)
    ensures Stopped(f, g[base := []], base, n, k)
  {
    TruncationFrame(g, base, []);
    forall j: nat {:trigger Slot(g[base := []], base, j)} | 0 < j
      ensures Slot(g[base := []], base, j) == Slot(g, base, j)
    {
    }
  }

  // A rotation interrupted by a failed rename leaves a subsequence of the log.
  lemma InterruptedRotationKeepsOrder(f: Files, g: Files, base: string, n: nat, k: nat)
    requires Shifted(f, g, base, n, k)
    ensures Subsequence(Family(g, base, n), Family(f, base, n))
    ensures Subsequence(Family(g[base := []], base, n), Family(f, base, n))
  {
    ShiftKeepsHistory(f, g, base, n, k);
    SuffixIsSubsequence(Family(g, base, n), Family(f, base, n));
    TruncationLosesOnly(g, base, n);
    SubsequenceTrans(Family(g[base := []], base, n), Family(g, base, n), Family(f, base, n));
  }
}
