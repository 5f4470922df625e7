/** Rules shared by the Drive restore and backup pages: wallet selection by
    `clientId` (kept as an array, as the pages keep it), the select-all toggle,
    toasts, and the messages that send the user back to sign-in. */
module PageCommon {
  import opened Wrappers
  import opened Text
  import opened Json

  /** A `clientId` value; a missing one reads as `null`. */
  type Id = Json

  function ClientId(w: Record): Id {
    Field(w, "clientId").GetOr(JNull)
  }

  function Ids(ws: seq<Record>): (r: seq<Id>)
    ensures |r| == |ws|
    ensures forall i :: 0 <= i < |ws| ==> r[i] == ClientId(ws[i])
  {
    seq(|ws|, i requires 0 <= i < |ws| => ClientId(ws[i]))
  }

  datatype ToastKind = Success | Warning | Error
  datatype Toast = Toast(kind: ToastKind, message: string)

  /** `prev.filter(id => id !== clientId)` */
  function Without(prev: seq<Id>, id: Id): (r: seq<Id>)
    ensures id !in r
    ensures forall x :: x in r <==> x in prev && x != id
    ensures id !in prev ==> r == prev
  {
    if prev == [] then []
    else (if prev[0] == id then [] else [prev[0]]) + Without(prev[1..], id)
  }

  /** `toggleSelect(clientId)`: drop every copy if present, else append. */
  function Toggle(prev: seq<Id>, id: Id): (r: seq<Id>)
    ensures id in r <==> id !in prev
    ensures forall x :: x != id ==> (x in r <==> x in prev)
  {
    if id in prev then Without(prev, id) else prev + [id]
  }

  /** Toggling the same id twice restores which ids are selected, and restores the
      array itself when the id started unselected. */
  lemma ToggleTwice(prev: seq<Id>, id: Id)
    ensures forall x :: x in Toggle(Toggle(prev, id), id) <==> x in prev
    ensures id !in prev ==> Toggle(Toggle(prev, id), id) == prev
  {
    if id !in prev {
      assert id in prev + [id];
      WithoutAppended(prev, id);
    }
  }

  lemma {:induction false} WithoutAppended(prev: seq<Id>, id: Id)
    requires id !in prev
    ensures Without(prev + [id], id) == prev
    decreases |prev|
  {
    if prev == [] {
      assert [id][1..] == [];
    } else {
      assert (prev + [id])[1..] == prev[1..] + [id];
      WithoutAppended(prev[1..], id);
    }
  }

  /** `isAllSelected`: a non-empty list with as many selected ids as entries.
      It compares counts, not members. */
  predicate AllSelected(items: seq<Record>, selected: seq<Id>) {
    |items| > 0 && |selected| == |items|
  }

  /** `toggleSelectAll` */
  function ToggleAll(items: seq<Record>, selected: seq<Id>): (r: seq<Id>)
    ensures AllSelected(items, selected) ==> r == []
    ensures !AllSelected(items, selected) ==> r == Ids(items)
  {
    if AllSelected(items, selected) then [] else Ids(items)
  }

  /** Select-all flips the all-selected state of a non-empty list. */
  lemma ToggleAllFlips(items: seq<Record>, selected: seq<Id>)
    requires |items| > 0
    ensures AllSelected(items, ToggleAll(items, selected)) <==> !AllSelected(items, selected)
  {
  }

  /** The wallets whose clientId is selected, in list order. */
  function SelectedIn(ws: seq<Record>, selected: seq<Id>): (r: seq<Record>)
    ensures |r| <= |ws|
    ensures forall w :: w in r <==> w in ws && ClientId(w) in selected
  {
    if ws == [] then []
    else (if ClientId(ws[0]) in selected then [ws[0]] else []) + SelectedIn(ws[1..], selected)
  }

  /** Selecting every id keeps the whole list, in order. */
  lemma {:induction false} SelectAllKeepsAll(ws: seq<Record>)
    ensures SelectedIn(ws, Ids(ws)) == ws
  {
    SelectedInSuperset(ws, Ids(ws));
  }

  lemma {:induction false} SelectedInSuperset(ws: seq<Record>, selected: seq<Id>)
    requires forall w :: w in ws ==> ClientId(w) in selected
    ensures SelectedIn(ws, selected) == ws
    decreases |ws|
  {
    if ws != [] {
      assert ws[0] in ws;
      assert forall w :: w in ws[1..] ==> w in ws;
      SelectedInSuperset(ws[1..], selected);
      assert [ws[0]] + ws[1..] == ws;
    }
  }

  /** The error messages on which the Drive pages sign out and back in. */
  predicate NeedsSignIn(message: string) {
    Contains(message, "insufficient authentication scopes") || Contains(message, "Session expired")
  }
}
