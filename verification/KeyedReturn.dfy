/** Exactly when an array compared by key comes back in the order it had. */
module KeyedReturn {
  import opened Documents
  import opened Changelogs
  import opened Pending
  import opened KeyedRows
  import opened RoundTrip
  import opened KeyedOrder

  /** The position of vanilla's row that a row stands for. */
  function At(name: KeyName, src: seq<Byml>, vanilla: seq<Byml>, i: nat): nat
    requires i < |src| && Kept(name, src[i], vanilla)
  {
    IndexOf(vanilla, name)[KeyOf(name, src[i])]
  }

  /** The rows kept are in vanilla's order, and no row of vanilla is missing that comes before one kept before a new row. */
  ghost predicate Undisturbed(name: KeyName, src: seq<Byml>, vanilla: seq<Byml>) {
    && (forall i, j :: 0 <= i < j < |src| && Kept(name, src[i], vanilla) && Kept(name, src[j], vanilla) ==>
          At(name, src, vanilla, i) < At(name, src, vanilla, j))
    && (forall h, i :: 0 <= h < i < |src| && Kept(name, src[h], vanilla) && !Kept(name, src[i], vanilla) ==>
          NoneMissing(name, src, vanilla, At(name, src, vanilla, h)))
  }

  ghost predicate NoneMissing(name: KeyName, src: seq<Byml>, vanilla: seq<Byml>, n: nat) {
    forall j :: 0 <= j < n ==> Found(name, src, vanilla, j)
  }

  ghost predicate InPlace(name: KeyName, src: seq<Byml>, vanilla: seq<Byml>) {
    forall i, j :: 0 <= i < j < |src| ==> PlaceOf(name, src, vanilla, i) <= PlaceOf(name, src, vanilla, j)
  }

  // ---------- counting kept rows ----------

  /** The positions in vanilla of the kept rows among the first `i`. */
  ghost function Positions(name: KeyName, src: seq<Byml>, vanilla: seq<Byml>, i: nat): set<nat>
    requires i <= |src|
  {
    set h | 0 <= h < i && Kept(name, src[h], vanilla) :: At(name, src, vanilla, h)
  }

  lemma InPositions(name: KeyName, src: seq<Byml>, vanilla: seq<Byml>, i: nat, h: nat)
    requires h < i <= |src| && Kept(name, src[h], vanilla)
    ensures At(name, src, vanilla, h) in Positions(name, src, vanilla, i)
  {
  }

  lemma {:induction false} PositionsCount(name: KeyName, src: seq<Byml>, vanilla: seq<Byml>, i: nat)
    requires i <= |src| && UniqueKeys(Some(name), src)
    ensures |Positions(name, src, vanilla, i)| == KeptBefore(name, src, vanilla, i)
  {
    hide KeyOf, IndexOf, UniqueKeys;
    if i > 0 {
      var before := Positions(name, src, vanilla, i - 1);
      PositionsCount(name, src, vanilla, i - 1);
      if Kept(name, src[i - 1], vanilla) {
        var at := At(name, src, vanilla, i - 1);
        if at in before {
          var h :| 0 <= h < i - 1 && Kept(name, src[h], vanilla) && At(name, src, vanilla, h) == at;
          OneStandsFor(name, src, vanilla, h, i - 1, at);
        }
        assert Positions(name, src, vanilla, i) == before + {at};
      } else {
        assert Positions(name, src, vanilla, i) == before;
      }
    } else {
      assert Positions(name, src, vanilla, 0) == {};
    }
  }

  lemma {:induction false} UpToCount(n: nat)
    ensures |UpTo(n)| == n
  {
    if n > 0 { UpToCount(n - 1); }
  }

  lemma SubsetCount(a: set<nat>, b: set<nat>)
    requires a <= b
    ensures |a| <= |b| && (|a| == |b| ==> a == b)
  {
    assert b == a + (b - a);
  }

  // ---------- the condition ----------

  lemma StandsEarlier(name: KeyName, src: seq<Byml>, vanilla: seq<Byml>, h: nat, j: nat) returns (s: nat)
    requires Undisturbed(name, src, vanilla) && h < |src| && Kept(name, src[h], vanilla)
    requires j < At(name, src, vanilla, h) && Found(name, src, vanilla, j)
    ensures s < h && Kept(name, src[s], vanilla) && At(name, src, vanilla, s) == j
  {
    hide KeyOf, IndexOf;
    s :| 0 <= s < |src| && StandsFor(name, src[s], vanilla, j);
    assert Kept(name, src[s], vanilla) && At(name, src, vanilla, s) == j;
  }

  lemma KeptBeforeNew(name: KeyName, src: seq<Byml>, vanilla: seq<Byml>, h: nat, i: nat)
    requires UniqueKeys(Some(name), src) && Undisturbed(name, src, vanilla)
    requires h < i < |src| && Kept(name, src[h], vanilla) && !Kept(name, src[i], vanilla)
    ensures At(name, src, vanilla, h) < KeptBefore(name, src, vanilla, i)
  {
    hide UniqueKeys, Kept, At, Found, Positions, KeptBefore;
    var at, positions := At(name, src, vanilla, h), Positions(name, src, vanilla, i);
    assert NoneMissing(name, src, vanilla, at);
    forall j: nat | j in UpTo(at + 1)
      ensures j in positions
    {
      var s := h;
      if j < at { s := StandsEarlier(name, src, vanilla, h, j); }
      InPositions(name, src, vanilla, i, s);
    }
    SubsetCount(UpTo(at + 1), positions);
    UpToCount(at + 1);
    PositionsCount(name, src, vanilla, i);
  }

  lemma NewBeforeKept(name: KeyName, src: seq<Byml>, vanilla: seq<Byml>, i: nat, j: nat)
    requires UniqueKeys(Some(name), src) && Undisturbed(name, src, vanilla)
    requires i < j < |src| && Kept(name, src[j], vanilla)
    ensures KeptBefore(name, src, vanilla, i) <= At(name, src, vanilla, j)
  {
    hide KeyOf, IndexOf, UniqueKeys;
    var at, positions := At(name, src, vanilla, j), Positions(name, src, vanilla, i);
    assert positions <= UpTo(at);
    SubsetCount(positions, UpTo(at));
    UpToCount(at);
    PositionsCount(name, src, vanilla, i);
  }

  lemma UndisturbedInPlace(name: KeyName, src: seq<Byml>, vanilla: seq<Byml>)
    requires UniqueKeys(Some(name), src) && Undisturbed(name, src, vanilla)
    ensures InPlace(name, src, vanilla)
  {
    hide KeyOf, IndexOf, UniqueKeys, KeptBefore;
    forall i, j | 0 <= i < j < |src|
      ensures PlaceOf(name, src, vanilla, i) <= PlaceOf(name, src, vanilla, j)
    {
      if Kept(name, src[i], vanilla) {
        if !Kept(name, src[j], vanilla) { KeptBeforeNew(name, src, vanilla, i, j); }
      } else if Kept(name, src[j], vanilla) {
        NewBeforeKept(name, src, vanilla, i, j);
      } else {
        KeptGrows(name, src, vanilla, i, j);
      }
    }
  }

  lemma InPlaceKeepsOrder(name: KeyName, src: seq<Byml>, vanilla: seq<Byml>, i: nat, j: nat)
    requires UniqueKeys(Some(name), src) && InPlace(name, src, vanilla)
    requires i < j < |src| && Kept(name, src[i], vanilla) && Kept(name, src[j], vanilla)
    ensures At(name, src, vanilla, i) < At(name, src, vanilla, j)
  {
    hide KeyOf, IndexOf, UniqueKeys;
    assert PlaceOf(name, src, vanilla, i) <= PlaceOf(name, src, vanilla, j);
    OneStandsFor(name, src, vanilla, i, j, At(name, src, vanilla, i));
  }

  lemma InPlaceMissesNone(name: KeyName, src: seq<Byml>, vanilla: seq<Byml>, h: nat, i: nat)
    requires UniqueKeys(Some(name), src) && InPlace(name, src, vanilla)
    requires h < i < |src| && Kept(name, src[h], vanilla) && !Kept(name, src[i], vanilla)
    ensures NoneMissing(name, src, vanilla, At(name, src, vanilla, h))
  {
    hide KeyOf, IndexOf, UniqueKeys;
    var kept, positions := KeptBefore(name, src, vanilla, i), Positions(name, src, vanilla, i);
    forall g | 0 <= g < i && Kept(name, src[g], vanilla)
      ensures At(name, src, vanilla, g) < kept
    {
      assert PlaceOf(name, src, vanilla, g) <= PlaceOf(name, src, vanilla, i);
    }
    assert positions <= UpTo(kept);
    SubsetCount(positions, UpTo(kept));
    UpToCount(kept);
    PositionsCount(name, src, vanilla, i);
    forall j | 0 <= j < At(name, src, vanilla, h)
      ensures Found(name, src, vanilla, j)
    {
      assert j in UpTo(kept);
      var g :| 0 <= g < i && Kept(name, src[g], vanilla) && At(name, src, vanilla, g) == j;
      assert StandsFor(name, src[g], vanilla, j);
    }
  }

  lemma InPlaceIff(name: KeyName, src: seq<Byml>, vanilla: seq<Byml>)
    requires UniqueKeys(Some(name), src)
    ensures InPlace(name, src, vanilla) <==> Undisturbed(name, src, vanilla)
  {
    hide KeyOf, IndexOf, UniqueKeys, PlaceOf;
    if Undisturbed(name, src, vanilla) {
      UndisturbedInPlace(name, src, vanilla);
    }
    if InPlace(name, src, vanilla) {
      forall i, j | 0 <= i < j < |src| && Kept(name, src[i], vanilla) && Kept(name, src[j], vanilla)
        ensures At(name, src, vanilla, i) < At(name, src, vanilla, j)
      {
        InPlaceKeepsOrder(name, src, vanilla, i, j);
      }
      forall h, i | 0 <= h < i < |src| && Kept(name, src[h], vanilla) && !Kept(name, src[i], vanilla)
        ensures NoneMissing(name, src, vanilla, At(name, src, vanilla, h))
      {
        InPlaceMissesNone(name, src, vanilla, h, i);
      }
    }
  }

  // ---------- the order is the mod's ----------

  lemma {:induction false} AtLeast(order: seq<nat>, k: nat)
    requires (forall a, b :: 0 <= a < b < |order| ==> order[a] < order[b]) && k < |order|
    ensures order[k] >= k
  {
    if k > 0 { AtLeast(order, k - 1); }
  }

  lemma {:induction false} FirstAre(order: seq<nat>, n: nat, k: nat)
    requires (forall i: nat :: i in order <==> i < n) && (forall a, b :: 0 <= a < b < |order| ==> order[a] < order[b]) && k <= n
    ensures k <= |order| && forall a :: 0 <= a < k ==> order[a] == a
  {
    if k > 0 {
      FirstAre(order, n, k - 1);
      var i: nat := k - 1;
      assert i in order;
      var at :| 0 <= at < |order| && order[at] == i;
      AtLeast(order, at);
    }
  }

  /** The order by places is the one the rows have exactly when no row belongs before an earlier one. */
  lemma SameOrderIff(name: KeyName, src: seq<Byml>, vanilla: seq<Byml>, order: seq<nat>)
    requires ByPlace(name, src, vanilla, order)
    ensures InPlace(name, src, vanilla) ==> |order| == |src| && forall k :: 0 <= k < |order| ==> order[k] == k
    ensures |order| == |src| && (forall k :: 0 <= k < |order| ==> order[k] == k) ==> InPlace(name, src, vanilla)
  {
    hide PlaceOf;
    if InPlace(name, src, vanilla) {
      forall a, b | 0 <= a < b < |order|
        ensures order[a] < order[b]
      {
        assert Precedes(name, src, vanilla, order[a], order[b]);
      }
      FirstAre(order, |src|, |src|);
      if order != [] {
        AtLeast(order, |order| - 1);
        assert order[|order| - 1] in order;
      }
    }
    if |order| == |src| && (forall k :: 0 <= k < |order| ==> order[k] == k) {
      forall i, j | 0 <= i < j < |src|
        ensures PlaceOf(name, src, vanilla, i) <= PlaceOf(name, src, vanilla, j)
      {
        assert order[i] == i && order[j] == j;
        assert Precedes(name, src, vanilla, order[i], order[j]);
      }
    }
  }

  /** The rows of an array compared by key come back in the order they had exactly when nothing was disturbed before a new row. */
  lemma KeyedArrayBackIff(c: Context, depth: int, arrayName: Option<string>, name: KeyName, src: seq<Byml>, vanilla: seq<Byml>)
    returns (result: seq<Byml>)
    requires KeyedArray(c, depth, arrayName, name, src, vanilla)
    ensures KeyedResult(c, depth, arrayName, name, src, vanilla) == Some(Array(result))
    ensures Undisturbed(name, src, vanilla) ==> SameRows(c, depth, result, src)
    ensures Different(c, depth, src) ==> (SameRows(c, depth, result, src) <==> Undisturbed(name, src, vanilla))
  {
    hide KeyedResult, RebuildableItem, UniqueKeys, KeyOf, Normal, Clean, ByPlace, InPlace, Undisturbed;
    var order: seq<nat>;
    result, order := KeyedArrayArranged(c, depth, arrayName, name, src, vanilla);
    InPlaceIff(name, src, vanilla);
    SameOrderIff(name, src, vanilla, order);
    if Different(c, depth, src) && SameRows(c, depth, result, src) {
      forall k | 0 <= k < |order|
        ensures order[k] == k
      {
        assert order[k] < |src| && Normal(c.rules, c.type_, depth, result[k]) == Normal(c.rules, c.type_, depth, src[order[k]]);
      }
    }
  }

  /** The same rows in the same order. */
  ghost predicate SameRows(c: Context, depth: int, a: seq<Byml>, b: seq<Byml>) {
    |a| == |b| && forall i :: 0 <= i < |a| ==> Normal(c.rules, c.type_, depth, a[i]) == Normal(c.rules, c.type_, depth, b[i])
  }

  ghost predicate Different(c: Context, depth: int, rows: seq<Byml>) {
    forall i, j :: 0 <= i < |rows| && 0 <= j < |rows| && i != j ==>
      Normal(c.rules, c.type_, depth, rows[i]) != Normal(c.rules, c.type_, depth, rows[j])
  }

  lemma {:induction false} IndexIs(name: KeyName, rows: seq<Byml>, i: nat)
    requires i < |rows| && !KeyOf(name, rows[i]).IsEmpty() && forall j :: i < j < |rows| ==> KeyOf(name, rows[j]) != KeyOf(name, rows[i])
    ensures KeyOf(name, rows[i]) in IndexOf(rows, name) && IndexOf(rows, name)[KeyOf(name, rows[i])] == i
  {
    hide KeyOf;
    if i < |rows| - 1 { IndexIs(name, rows[..|rows| - 1], i); }
  }

  /** After a row that was removed a new one comes back before the row it followed: of vanilla's `[a, b, d]` the mod leaves
      `b` and `d` and puts `n` between them, and it settles to `[n, b, d]`. */
  lemma MisplacedAfterRemoval(c: Context, depth: int, arrayName: Option<string>, name: KeyName, a: Byml, b: Byml, n: Byml, d: Byml)
    returns (result: seq<Byml>)
    requires KeyedArray(c, depth, arrayName, name, [b, n, d], [a, b, d])
    requires KeyOf(name, a) != KeyOf(name, n) && KeyOf(name, b) != KeyOf(name, n) && KeyOf(name, d) != KeyOf(name, n)
    requires KeyOf(name, b) != KeyOf(name, d)
    ensures KeyedResult(c, depth, arrayName, name, [b, n, d], [a, b, d]) == Some(Array(result))
    ensures SameRows(c, depth, result, [n, b, d])
  {
    hide KeyedResult, RebuildableItem, UniqueKeys, KeyOf, Normal, Clean, IndexOf;
    var src, vanilla := [b, n, d], [a, b, d];
    var order: seq<nat>;
    result, order := KeyedArrayArranged(c, depth, arrayName, name, src, vanilla);
    assert src[0] == b && src[1] == n && src[2] == d;
    assert !KeyOf(name, src[0]).IsEmpty() && !KeyOf(name, src[2]).IsEmpty();
    IndexIs(name, vanilla, 1);
    IndexIs(name, vanilla, 2);
    IndexInRange(vanilla, name);
    assert !Kept(name, n, vanilla);
    assert PlaceOf(name, src, vanilla, 0) == 3 && PlaceOf(name, src, vanilla, 2) == 5;
    assert KeptBefore(name, src, vanilla, 1) == 1 && PlaceOf(name, src, vanilla, 1) == 2;
    ThreeInOrder(name, src, vanilla, order);
  }

  lemma ThreeInOrder(name: KeyName, src: seq<Byml>, vanilla: seq<Byml>, order: seq<nat>)
    requires |src| == 3 && ByPlace(name, src, vanilla, order)
    requires PlaceOf(name, src, vanilla, 1) < PlaceOf(name, src, vanilla, 0) < PlaceOf(name, src, vanilla, 2)
    ensures order == [1, 0, 2]
  {
    hide PlaceOf;
    assert ByPlace(name, src, vanilla, [1, 0, 2]);
    OnlyOrder(name, src, vanilla, order, [1, 0, 2]);
  }

  lemma {:induction false} SameFirst(name: KeyName, src: seq<Byml>, vanilla: seq<Byml>, a: seq<nat>, b: seq<nat>, k: nat)
    requires ByPlace(name, src, vanilla, a) && ByPlace(name, src, vanilla, b) && k <= |a|
    ensures k <= |b| && forall l :: 0 <= l < k ==> a[l] == b[l]
  {
    hide PlaceOf;
    if k > 0 {
      SameFirst(name, src, vanilla, a, b, k - 1);
      assert a[k - 1] in a && a[k - 1] in b;
      var m :| 0 <= m < |b| && b[m] == a[k - 1];
      Apart(name, src, vanilla, a, b, m, k - 1);
      assert b[k - 1] in b && b[k - 1] in a;
      var n :| 0 <= n < |a| && a[n] == b[k - 1];
      Apart(name, src, vanilla, b, a, n, k - 1);
    }
  }

  lemma Apart(name: KeyName, src: seq<Byml>, vanilla: seq<Byml>, a: seq<nat>, b: seq<nat>, m: nat, k: nat)
    requires InOrder(name, src, vanilla, a) && m < |b| && k < |a| && b[m] == a[k]
    requires forall l :: 0 <= l < k && l < |b| ==> a[l] == b[l]
    ensures m >= k
  {
    hide PlaceOf;
  }

  /** There is one order by places only. */
  lemma OnlyOrder(name: KeyName, src: seq<Byml>, vanilla: seq<Byml>, a: seq<nat>, b: seq<nat>)
    requires ByPlace(name, src, vanilla, a) && ByPlace(name, src, vanilla, b)
    ensures a == b
  {
    SameFirst(name, src, vanilla, a, b, |a|);
    SameFirst(name, src, vanilla, b, a, |b|);
  }
}
