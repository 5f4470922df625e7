/** The keyed merge `backupWalletsToDrive` performs before uploading: each new
    wallet replaces, by shallow field override, the first record of the list
    built so far that it matches, and is appended otherwise. */
module BackupMerge {
  import opened Wrappers
  import opened Json

  /** `(oldW.clientId && oldW.clientId === newW.clientId) ||
      (oldW.walletName === newW.walletName && oldW.chain_name === newW.chain_name)`;
      two missing fields compare equal, as two `undefined` values do, and an
      object- or array-valued field equals nothing, as `===` compares references. */
  predicate Matches(prior: Record, w: Record) {
    || (Present(Field(prior, "clientId")) && StrictEquals(Field(prior, "clientId"), Field(w, "clientId")))
    || (StrictEquals(Field(prior, "walletName"), Field(w, "walletName"))
        && StrictEquals(Field(prior, "chain_name"), Field(w, "chain_name")))
  }

  /** Records match on equal primitive clientIds, or on equal primitive (or both
      missing) names and chains; an object or array id never matches by itself. */
  lemma MatchesByValue(prior: Record, w: Record)
    ensures (&& Field(prior, "clientId").Some? && Field(prior, "clientId") == Field(w, "clientId")
             && Truthy(prior["clientId"]) && !prior["clientId"].JArr? && !prior["clientId"].JObj?) ==> Matches(prior, w)
    ensures "clientId" in prior && (prior["clientId"].JArr? || prior["clientId"].JObj?) ==>
              (Matches(prior, w) <==> StrictEquals(Field(prior, "walletName"), Field(w, "walletName"))
                                      && StrictEquals(Field(prior, "chain_name"), Field(w, "chain_name")))
  {
  }

  /** `findIndex`: the first record `w` matches, if any. */
  function FindMatch(list: seq<Record>, w: Record): (r: Option<nat>)
    ensures r.Some? ==> r.value < |list| && Matches(list[r.value], w)
    ensures r.Some? ==> forall j :: 0 <= j < r.value ==> !Matches(list[j], w)
    ensures r.None? ==> forall j :: 0 <= j < |list| ==> !Matches(list[j], w)
  {
    if |list| == 0 then None
    else if Matches(list[0], w) then Some(0)
    else match FindMatch(list[1..], w)
      case None => None
      case Some(i) => Some(i + 1)
  }

  /** One step of the `forEach`: replace the first match by `{...old, ...w}`, or push `w`. */
  function MergeOne(list: seq<Record>, w: Record): (r: seq<Record>)
    ensures FindMatch(list, w).Some? ==>
      var i := FindMatch(list, w).value;
      |r| == |list| && r[i] == Spread(list[i], w) && forall j :: 0 <= j < |list| && j != i ==> r[j] == list[j]
    ensures FindMatch(list, w).None? ==> r == list + [w]
  {
    match FindMatch(list, w)
    case Some(i) => list[i := Spread(list[i], w)]
    case None => list + [w]
  }

  /** The whole merge: new wallets are folded in, in order, against the growing list. */
  function Merge(base: seq<Record>, news: seq<Record>): (r: seq<Record>)
    ensures |base| <= |r| <= |base| + |news|
    ensures forall i :: 0 <= i < |base| ==> base[i].Keys <= r[i].Keys
  {
    if news == [] then base
    else MergeOne(Merge(base, news[..|news| - 1]), news[|news| - 1])
  }

  /** How many new wallets found no match in the list as it stood when their turn came. */
  function Unmatched(base: seq<Record>, news: seq<Record>, n: nat): nat
    requires n <= |news|
  {
    if n == 0 then 0
    else Unmatched(base, news, n - 1) + (if FindMatch(Merge(base, news[..n - 1]), news[n - 1]).None? then 1 else 0)
  }

  /** The merged list is the old list plus one entry per unmatched new wallet. */
  lemma {:induction false} MergeLength(base: seq<Record>, news: seq<Record>)
    ensures |Merge(base, news)| == |base| + Unmatched(base, news, |news|)
    ensures |base| <= |Merge(base, news)| <= |base| + |news|
    decreases |news|
  {
    if news != [] {
      var init := news[..|news| - 1];
      MergeLength(base, init);
      assert forall n :: 0 <= n <= |init| ==> Unmatched(base, init, n) == Unmatched(base, news, n) by {
        forall n | 0 <= n <= |init| ensures Unmatched(base, init, n) == Unmatched(base, news, n) {
          UnmatchedPrefix(base, news, init, n);
        }
      }
    }
  }

  lemma {:induction false} UnmatchedPrefix(base: seq<Record>, news: seq<Record>, init: seq<Record>, n: nat)
    requires n <= |init| <= |news| && init == news[..|init|]
    ensures Unmatched(base, init, n) == Unmatched(base, news, n)
  {
    if n > 0 {
      UnmatchedPrefix(base, news, init, n - 1);
      assert init[..n - 1] == news[..n - 1];
    }
  }

  /** No new wallet carries field `k`. */
  predicate Untouched(news: seq<Record>, k: string) {
    forall j :: 0 <= j < |news| ==> k !in news[j]
  }

  /** Existing records keep their positions and all their fields; a field no new
      wallet mentions keeps its old value. */
  lemma {:induction false} MergeKeepsExisting(base: seq<Record>, news: seq<Record>)
    ensures |Merge(base, news)| >= |base|
    ensures forall i :: 0 <= i < |base| ==> base[i].Keys <= Merge(base, news)[i].Keys
    ensures forall i, k :: 0 <= i < |base| && k in base[i] && Untouched(news, k) ==> Merge(base, news)[i][k] == base[i][k]
    decreases |news|
  {
    MergeLength(base, news);
    if news != [] {
      var init := news[..|news| - 1];
      MergeKeepsExisting(base, init);
      forall i, k | 0 <= i < |base| && k in base[i] && Untouched(news, k)
        ensures Merge(base, news)[i][k] == base[i][k]
      {
        assert Untouched(init, k) by {
          forall j | 0 <= j < |init| ensures k !in init[j] { assert init[j] == news[j]; }
        }
      }
    }
  }

  /** Without any match (old vs new, earlier new vs later new) the merge is plain concatenation. */
  lemma {:induction false} MergeWithoutCollisions(base: seq<Record>, news: seq<Record>)
    requires forall i, j :: 0 <= i < |base| && 0 <= j < |news| ==> !Matches(base[i], news[j])
    requires forall i, j :: 0 <= i < j < |news| ==> !Matches(news[i], news[j])
    ensures Merge(base, news) == base + news
    decreases |news|
  {
    if news != [] {
      var init := news[..|news| - 1];
      var w := news[|news| - 1];
      MergeWithoutCollisions(base, init);
      var list := base + init;
      forall j | 0 <= j < |list| ensures !Matches(list[j], w) {
        if j < |base| { assert list[j] == base[j]; } else { assert list[j] == news[j - |base|]; }
      }
      assert base + init + [w] == base + news;
    }
  }

  /** Record `r` holds every field of `w` with `w`'s value. */
  predicate Carries(r: Record, w: Record) {
    forall k :: k in w ==> k in r && r[k] == w[k]
  }

  /** The last new wallet is applied in full: some record of the result carries every one of its fields. */
  lemma LastWalletApplied(base: seq<Record>, news: seq<Record>)
    requires news != []
    ensures exists i :: 0 <= i < |Merge(base, news)| && Carries(Merge(base, news)[i], news[|news| - 1])
  {
    var list := Merge(base, news[..|news| - 1]);
    var w := news[|news| - 1];
    var r := Merge(base, news);
    match FindMatch(list, w)
    case Some(i) => assert r[i] == Spread(list[i], w);
    case None => assert r[|list|] == w;
  }

  /** The lookup runs over the growing list: two new wallets with the same truthy
      clientId collapse into one record even when no old record matched. */
  lemma GrowingListCollapse(w1: Record, w2: Record)
    requires "clientId" in w1 && w1["clientId"] == JStr("a")
    requires "clientId" in w2 && w2["clientId"] == JStr("a")
    ensures Merge([], [w1, w2]) == [Spread(w1, w2)]
  {
    assert [w1, w2][..1] == [w1];
    assert [w1][..0] == [];
    assert Merge([], [w1]) == MergeOne([], w1) == [w1];
    assert Matches(w1, w2);
    assert FindMatch([w1], w2) == Some(0);
    assert MergeOne([w1], w2) == [Spread(w1, w2)];
  }

  /** The documented scenario: re-backing up a renamed wallet replaces it; a wallet
      with a new clientId and name is added beside it. */
  lemma RenameThenAdd()
    ensures var first := Merge([], [map["clientId" := JStr("a"), "walletName" := JStr("W1")]]);
            var renamed := Merge(first, [map["clientId" := JStr("a"), "walletName" := JStr("W1-renamed")]]);
            var added := Merge(renamed, [map["clientId" := JStr("b"), "walletName" := JStr("W2")]]);
            && |renamed| == 1 && renamed[0]["walletName"] == JStr("W1-renamed")
            && |added| == 2
  {
    var a1: Record := map["clientId" := JStr("a"), "walletName" := JStr("W1")];
    var a2: Record := map["clientId" := JStr("a"), "walletName" := JStr("W1-renamed")];
    var b: Record := map["clientId" := JStr("b"), "walletName" := JStr("W2")];
    MergeSingle([], a1);
    assert FindMatch([], a1).None?;
    var first := [a1];
    MergeSingle(first, a2);
    assert Matches(a1, a2);
    assert FindMatch(first, a2) == Some(0);
    var renamed := [Spread(a1, a2)];
    assert Merge(first, [a2]) == renamed;
    assert Field(Spread(a1, a2), "walletName") == Some(JStr("W1-renamed"));
    MergeSingle(renamed, b);
    assert !Matches(Spread(a1, a2), b);
    assert FindMatch(renamed, b).None?;
  }

  /** Merging a single wallet is one step of the fold. */
  lemma MergeSingle(base: seq<Record>, w: Record)
    ensures Merge(base, [w]) == MergeOne(base, w)
  {
    assert [w][..0] == [];
  }

  // ---------------------------------------------------------------------------
  // Stored entries. The list read back from an old backup holds whatever JSON the
  // file held, so the same fold also runs over raw entries, where a `null` entry
  // makes `findIndex` throw.

  /** The TypeError that `oldW.clientId` raises on a `null` entry. */
  const NullEntryError: string := "Cannot read properties of null (reading 'clientId')"

  /** The fields the match reads from an entry and the spread copies from it: an
      object's own fields; a number, boolean, string or array has none of the
      three fields the match reads. */
  function Fields(entry: Json): (r: Record)
    ensures entry.JObj? ==> r == entry.fields
    ensures !entry.JObj? ==> Field(r, "clientId").None? && Field(r, "walletName").None? && Field(r, "chain_name").None?
  {
    if entry.JObj? then entry.fields else map[]
  }

  /** `findIndex` over raw entries: the first match, or the TypeError of the first
      `null` entry reached before any match. */
  function FindEntry(list: seq<Json>, w: Record): (r: Result<Option<nat>>)
    ensures r.Ok? && r.value.Some? ==>
              r.value.value < |list| && !list[r.value.value].JNull? && Matches(Fields(list[r.value.value]), w)
    ensures r.Ok? ==> forall j :: 0 <= j < (if r.value.Some? then r.value.value else |list|) ==>
              !list[j].JNull? && !Matches(Fields(list[j]), w)
    ensures r.Err? ==> r.message == NullEntryError
    ensures r.Err? ==> exists k :: 0 <= k < |list| && list[k].JNull? && forall j :: 0 <= j < k ==> !Matches(Fields(list[j]), w)
  {
    if |list| == 0 then Ok(None)
    else if list[0].JNull? then Err(NullEntryError)
    else if Matches(Fields(list[0]), w) then Ok(Some(0))
    else match FindEntry(list[1..], w)
      case Err(m) =>
        var k :| 0 <= k < |list[1..]| && list[1..][k].JNull? && forall j :: 0 <= j < k ==> !Matches(Fields(list[1..][j]), w);
        assert list[k + 1].JNull?;
        Err(m)
      case Ok(None) => Ok(None)
      case Ok(Some(i)) => Ok(Some(i + 1))
  }

  /** One `forEach` step over raw entries: the match becomes the object
      `{...entry, ...w}`, an unmatched `w` is pushed, a `null` reached first throws. */
  function MergeEntry(list: seq<Json>, w: Record): (r: Result<seq<Json>>)
    ensures r.Err? <==> FindEntry(list, w).Err?
    ensures r.Err? ==> r.message == NullEntryError
    ensures FindEntry(list, w) == Ok(None) ==> r == Ok(list + [JObj(w)])
    ensures FindEntry(list, w).Ok? && FindEntry(list, w).value.Some? ==>
              var i := FindEntry(list, w).value.value;
              r == Ok(list[i := JObj(Spread(Fields(list[i]), w))])
  {
    match FindEntry(list, w)
    case Err(m) => Err(m)
    case Ok(None) => Ok(list + [JObj(w)])
    case Ok(Some(i)) => Ok(list[i := JObj(Spread(Fields(list[i]), w))])
  }

  /** The fold of `backupWalletsToDrive` over the stored list. It only ever adds
      objects, so a throw needs a `null` already in the stored list, and every
      entry of the result is a stored entry or an object. */
  function MergeStored(base: seq<Json>, news: seq<Record>): (r: Result<seq<Json>>)
    ensures r.Err? ==> r.message == NullEntryError && JNull in base
    ensures r.Ok? ==> |base| <= |r.value| <= |base| + |news|
    ensures r.Ok? ==> forall x :: x in r.value ==> x in base || x.JObj?
  {
    if news == [] then Ok(base)
    else
      var list :- MergeStored(base, news[..|news| - 1]);
      var w := news[|news| - 1];
      match FindEntry(list, w)
      case Err(m) =>
        var k :| 0 <= k < |list| && list[k].JNull? && forall j :: 0 <= j < k ==> !Matches(Fields(list[j]), w);
        assert list[k] in list;
        Err(m)
      case Ok(None) => Ok(list + [JObj(w)])
      case Ok(Some(i)) => Ok(list[i := JObj(Spread(Fields(list[i]), w))])
  }

  /** Over a list of objects the raw fold is the record fold: same matches, same result. */
  lemma {:induction false} FindEntryObjects(list: seq<Record>, w: Record)
    ensures FindEntry(Objects(list), w) == Ok(FindMatch(list, w))
    decreases |list|
  {
    if list != [] {
      assert Objects(list)[1..] == Objects(list[1..]);
      FindEntryObjects(list[1..], w);
    }
  }

  /** A stored list made only of objects merges exactly as the record merge says. */
  lemma {:induction false} MergeStoredObjects(base: seq<Record>, news: seq<Record>)
    ensures MergeStored(Objects(base), news) == Ok(Objects(Merge(base, news)))
    decreases |news|
  {
    if news != [] {
      var init, w := news[..|news| - 1], news[|news| - 1];
      MergeStoredObjects(base, init);
      var list := Merge(base, init);
      FindEntryObjects(list, w);
      match FindMatch(list, w)
      case None =>
        assert Objects(list) + [JObj(w)] == Objects(list + [w]);
      case Some(i) =>
        assert Objects(list)[i := JObj(Spread(list[i], w))] == Objects(list[i := Spread(list[i], w)]);
    }
  }

  /** The lookup of `w` reaches the `null` entry at `k` when nothing before it matches. */
  lemma {:induction false} FindEntryReachesNull(list: seq<Json>, w: Record, k: nat)
    requires k < |list| && list[k].JNull?
    requires forall j :: 0 <= j < k ==> !Matches(Fields(list[j]), w)
    ensures FindEntry(list, w) == Err(NullEntryError)
    decreases k
  {
    if k > 0 && !list[0].JNull? {
      FindEntryReachesNull(list[1..], w, k - 1);
    }
  }

  /** A `null` in the old backup aborts the whole merge when the first new wallet
      matches nothing stored before it: nothing is uploaded. */
  lemma {:induction false} NullEntryAborts(base: seq<Json>, news: seq<Record>, k: nat)
    requires news != [] && k < |base| && base[k].JNull?
    requires forall j :: 0 <= j < k ==> !Matches(Fields(base[j]), news[0])
    ensures MergeStored(base, news) == Err(NullEntryError)
    decreases |news|
  {
    if |news| == 1 {
      assert news[..0] == [];
      FindEntryReachesNull(base, news[0], k);
    } else {
      var init := news[..|news| - 1];
      assert init[0] == news[0];
      NullEntryAborts(base, init, k);
    }
  }
}
