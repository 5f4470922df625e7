/** The wallet list page (`wallets/page.jsx`): drag-and-drop reordering and how the
    current-wallet index follows the move, the name search, choosing a wallet from
    the search results, and the sort option. */
module WalletsPage {
  import opened Wrappers
  import opened Text

  /** A wallet as the list shows it; `walletName` may be absent. */
  datatype Wallet = Wallet(id: string, walletName: Option<string>)

  /** Remove the item at `from`, then insert it at `to` (how the reorder helper is
      read here; the helper itself lives outside this repository). */
  function MoveItem<T>(xs: seq<T>, from: nat, to: nat): (r: seq<T>)
    requires from < |xs| && to < |xs|
    ensures |r| == |xs| && r[to] == xs[from]
  {
    var rest := xs[..from] + xs[from + 1..];
    rest[..to] + [xs[from]] + rest[to..]
  }

  /** The `currentWalletIndex` sent with the reordered list; None is `undefined`. */
  function NewCurrentIndex(from: int, to: int, current: int): (r: Option<int>)
    ensures from == current ==> r == Some(to)
    ensures from != current && to > from && from < current <= to ==> r == Some(current - 1)
    ensures from != current && to <= from && to <= current < from ==> r == Some(current + 1)
    ensures r.None? <==> from != current && !(to > from && from < current <= to) && !(to <= from && to <= current < from)
  {
    var isMoveDown := to > from;
    if from == current then Some(to)
    else if isMoveDown && to >= current && from < current then Some(current - 1)
    else if !isMoveDown && to <= current && from > current then Some(current + 1)
    else None
  }

  /** The index follows the current wallet through the move; when the formula gives
      `undefined`, the current wallet did not move. */
  lemma MoveTracksCurrent<T>(xs: seq<T>, from: nat, to: nat, current: nat)
    requires from < |xs| && to < |xs| && current < |xs|
    ensures var moved := MoveItem(xs, from, to);
            match NewCurrentIndex(from, to, current)
            case Some(j) => 0 <= j < |xs| && moved[j] == xs[current]
            case None => moved[current] == xs[current]
  {
    var rest := xs[..from] + xs[from + 1..];
    var moved := MoveItem(xs, from, to);
    assert |rest| == |xs| - 1;
    if from != current {
      // position of the current wallet in `rest`
      var c := if current < from then current else current - 1;
      assert rest[c] == xs[current];
      if c < to {
        assert moved[c] == rest[c];
      } else {
        assert moved[c + 1] == rest[c];
      }
    }
  }

  datatype DragOutcome = NoDispatch | Rearrange(wallets: seq<Wallet>, currentIndex: Option<int>)

  /** `onDragEnd`: `overId` is None when dropped outside the list. */
  function OnDragEnd(all: seq<Wallet>, activeId: string, overId: Option<string>, from: nat, to: nat,
                     current: nat): (r: DragOutcome)
    requires from < |all| && to < |all|
    ensures r.Rearrange? <==> overId.Some? && overId != Some(activeId)
    ensures r.Rearrange? ==> r.wallets == MoveItem(all, from, to) && r.currentIndex == NewCurrentIndex(from, to, current)
    ensures r.Rearrange? ==> multiset(r.wallets) == multiset(all)
  {
    if overId.None? || overId.value == activeId then NoDispatch
    else
      MovePermutes(all, from, to);
      Rearrange(MoveItem(all, from, to), NewCurrentIndex(from, to, current))
  }

  lemma MovePermutes<T>(xs: seq<T>, from: nat, to: nat)
    requires from < |xs| && to < |xs|
    ensures multiset(MoveItem(xs, from, to)) == multiset(xs)
  {
    var x := xs[from];
    var rest := xs[..from] + xs[from + 1..];
    assert xs == xs[..from] + [x] + xs[from + 1..];
    assert multiset(xs) == multiset(xs[..from]) + multiset{x} + multiset(xs[from + 1..]);
    assert multiset(rest) == multiset(xs[..from]) + multiset(xs[from + 1..]);
    assert rest == rest[..to] + rest[to..];
    assert multiset(rest) == multiset(rest[..to]) + multiset(rest[to..]);
    var moved := MoveItem(xs, from, to);
    assert moved == rest[..to] + [x] + rest[to..];
    assert multiset(moved) == multiset(rest[..to]) + multiset{x} + multiset(rest[to..]);
    assert multiset(moved) == multiset(rest) + multiset{x};
  }

  /** `item?.walletName?.toLowerCase()?.includes(text.toLowerCase())` */
  predicate NameMatches(w: Wallet, text: string)
    ensures text == "" ==> (NameMatches(w, text) <==> w.walletName.Some?)
    ensures w.walletName.Some? && Lower(w.walletName.value) == Lower(text) ==> NameMatches(w, text)
    ensures NameMatches(w, text) ==> w.walletName.Some? && |text| <= |w.walletName.value|
  {
    w.walletName.Some? && Contains(Lower(w.walletName.value), Lower(text))
  }

  function Filter(all: seq<Wallet>, text: string): (r: seq<Wallet>)
    ensures |r| <= |all|
    ensures forall w :: w in r <==> w in all && NameMatches(w, text)
  {
    if all == [] then []
    else (if NameMatches(all[0], text) then [all[0]] else []) + Filter(all[1..], text)
  }

  /** `handleSearch`: an empty text clears the results. */
  function Search(all: seq<Wallet>, text: string): (r: seq<Wallet>)
    ensures text == "" ==> r == []
    ensures text != "" ==> r == Filter(all, text)
  {
    if text == "" then [] else Filter(all, text)
  }

  /** `walletList`: the results while a query is typed, else every wallet. */
  function Shown(all: seq<Wallet>, query: string, results: seq<Wallet>): seq<Wallet> {
    if query != "" then results else all
  }

  lemma EmptyQueryShowsAll(all: seq<Wallet>)
    ensures Shown(all, "", Search(all, "")) == all
  {
  }

  /** The filter keeps relative order: filtering a concatenation filters each part in place. */
  lemma {:induction false} FilterAppend(a: seq<Wallet>, b: seq<Wallet>, text: string)
    ensures Filter(a + b, text) == Filter(a, text) + Filter(b, text)
    decreases |a|
  {
    if a == [] {
      assert a + b == b;
    } else {
      assert (a + b)[0] == a[0];
      assert (a + b)[1..] == a[1..] + b;
      FilterAppend(a[1..], b, text);
    }
  }

  /** `allWallets.findIndex(w => w.walletName === name)`, with -1 as None. */
  function FindByName(all: seq<Wallet>, name: Option<string>): (r: Option<nat>)
    ensures r.Some? ==> r.value < |all| && all[r.value].walletName == name
    ensures r.Some? ==> forall k :: 0 <= k < r.value ==> all[k].walletName != name
    ensures r.None? ==> forall k :: 0 <= k < |all| ==> all[k].walletName != name
  {
    if all == [] then None
    else if all[0].walletName == name then Some(0)
    else match FindByName(all[1..], name)
      case None => None
      case Some(k) => Some(k + 1)
  }

  /** The index dispatched when a row is chosen: in search mode the first wallet of
      the full list with the chosen row's name (nothing if none), else the row index. */
  function ChooseRow(all: seq<Wallet>, query: string, item: Wallet, index: nat): (r: Option<nat>)
    ensures query == "" ==> r == Some(index)
    ensures query != "" && r.Some? ==> r.value < |all| && all[r.value].walletName == item.walletName
    ensures query != "" && r.Some? ==> forall k :: 0 <= k < r.value ==> all[k].walletName != item.walletName
    ensures query != "" ==> (r.None? <==> forall k :: 0 <= k < |all| ==> all[k].walletName != item.walletName)
  {
    if query != "" then FindByName(all, item.walletName) else Some(index)
  }

  /** Wallets sharing a name all select the first of them. */
  lemma SameNameSelectsFirst(all: seq<Wallet>, query: string, i: nat, j: nat, item: Wallet, index: nat)
    requires query != ""
    requires i < j < |all| && all[i].walletName == all[j].walletName == item.walletName
    ensures ChooseRow(all, query, item, index).Some? && ChooseRow(all, query, item, index).value <= i
    ensures ChooseRow(all, query, item, index) == ChooseRow(all, query, all[j], j)
  {
  }

  datatype SortStep = SortStep(stored: string, sortWith: Option<string>)

  /** `handleSortSelect`: the option is always stored; sorting happens unless it is `default`. */
  function HandleSortSelect(option: string): (r: SortStep)
    ensures r.stored == option
    ensures r.sortWith.Some? <==> option != "default"
    ensures r.sortWith.Some? ==> r.sortWith.value == option
  {
    SortStep(option, if option != "default" then Some(option) else None)
  }
}
