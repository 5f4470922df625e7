/** The pending batch-transaction banner (`BatchTransactionBanner`): how many
    batched transactions the current wallet has, on which chains, and the text. */
module BatchBanner {
  import opened Wrappers
  import opened Text

  /** A batched transaction; the chain display name may be absent. */
  datatype BatchTx = BatchTx(chainDisplayName: Option<string>)

  datatype Summary = Summary(count: nat, chains: seq<string>, text: string)

  const NoSummary := Summary(0, [], "")

  /** The position of the first occurrence of `x` in `xs`. */
  function FirstIndex(xs: seq<Option<string>>, x: Option<string>): (k: nat)
    requires x in xs
    ensures k < |xs| && xs[k] == x && x !in xs[..k]
  {
    if xs[0] == x then 0
    else
      var k := FirstIndex(xs[1..], x) + 1;
      assert xs[..k] == [xs[0]] + xs[1..][..k - 1];
      k
  }

  /** A first occurrence inside a prefix is the first occurrence in the whole list. */
  lemma FirstIndexPrefix(xs: seq<Option<string>>, n: nat, x: Option<string>)
    requires n <= |xs| && x in xs[..n]
    ensures FirstIndex(xs[..n], x) == FirstIndex(xs, x)
  {
    var k := FirstIndex(xs[..n], x);
    assert xs[..n][..k] == xs[..k];
  }

  /** `[...new Set(names)]`: each name once, in the order of its first occurrence. */
  function Distinct(xs: seq<Option<string>>): (r: seq<Option<string>>)
    ensures forall x :: x in r <==> x in xs
    ensures forall i, j :: 0 <= i < j < |r| ==> r[i] != r[j]
  {
    if xs == [] then []
    else
      var n := |xs| - 1;
      var init := Distinct(xs[..n]);
      if xs[n] in init then init else init + [xs[n]]
  }

  /** The set lists the names in the order in which each first occurs. */
  lemma {:induction false} DistinctFirstOrder(xs: seq<Option<string>>)
    ensures forall i, j :: 0 <= i < j < |Distinct(xs)| ==> FirstIndex(xs, Distinct(xs)[i]) < FirstIndex(xs, Distinct(xs)[j])
  {
    if xs != [] {
      var n := |xs| - 1;
      var init := Distinct(xs[..n]);
      DistinctFirstOrder(xs[..n]);
      forall y | y in init ensures FirstIndex(xs[..n], y) == FirstIndex(xs, y) && FirstIndex(xs, y) < n {
        FirstIndexPrefix(xs, n, y);
      }
      var r := Distinct(xs);
      if xs[n] in init {
        assert r == init;
      } else {
        assert xs[n] !in xs[..n];
        assert FirstIndex(xs, xs[n]) == n;
        assert r == init + [xs[n]];
        forall i, j | 0 <= i < j < |r| ensures FirstIndex(xs, r[i]) < FirstIndex(xs, r[j]) {
          assert r[i] == init[i] && r[i] in init;
        }
      }
    }
  }

  /** `.filter(Boolean)` over the chain names. */
  function Named(names: seq<Option<string>>): (r: seq<string>)
    ensures forall c :: c in r <==> Some(c) in names && c != ""
    ensures |r| <= |names|
  {
    if names == [] then []
    else (if names[0].Some? && names[0].value != "" then [names[0].value] else []) + Named(names[1..])
  }

  function ChainNames(txs: seq<BatchTx>): (r: seq<Option<string>>)
    ensures |r| == |txs| && forall i :: 0 <= i < |txs| ==> r[i] == txs[i].chainDisplayName
  {
    seq(|txs|, i requires 0 <= i < |txs| => txs[i].chainDisplayName)
  }

  /** Filtering after de-duplicating keeps the names distinct. */
  lemma {:induction false} NamedKeepsDistinct(names: seq<Option<string>>)
    requires forall i, j :: 0 <= i < j < |names| ==> names[i] != names[j]
    ensures forall i, j :: 0 <= i < j < |Named(names)| ==> Named(names)[i] != Named(names)[j]
    decreases |names|
  {
    if names != [] {
      NamedKeepsDistinct(names[1..]);
      var head := if names[0].Some? && names[0].value != "" then [names[0].value] else [];
      var tail := Named(names[1..]);
      assert Named(names) == head + tail;
      if head != [] {
        assert names[0] !in names[1..];
        assert names[0].value !in tail;
      }
    }
  }

  /** ` on X`, ` across N chains (a, b)`, or nothing. */
  function ChainText(chains: seq<string>): (r: string)
    ensures chains == [] ==> r == ""
    ensures |chains| == 1 ==> r == " on " + chains[0]
    ensures |chains| > 1 ==> r == " across " + NatToString(|chains|) + " chains (" + Join(chains, ", ") + ")"
  {
    if |chains| == 1 then " on " + chains[0]
    else if |chains| > 1 then " across " + NatToString(|chains|) + " chains (" + Join(chains, ", ") + ")"
    else ""
  }

  function Noun(count: nat): (r: string)
    ensures r == "transaction" <==> count == 1
  {
    if count == 1 then "transaction" else "transactions"
  }

  /** The banner summary for the current wallet; `batches` maps a wallet's clientId
      to its batched transactions and is None while the store has none. */
  function Summarize(batches: Option<map<string, seq<BatchTx>>>, clientId: string): (r: Summary)
    ensures batches.None? || clientId == "" ==> r == NoSummary
    ensures batches.Some? && clientId != "" && (clientId !in batches.value || batches.value[clientId] == []) ==> r == NoSummary
    ensures batches.Some? && clientId != "" && clientId in batches.value && batches.value[clientId] != [] ==>
              r.count == |batches.value[clientId]|
    ensures r.count > 0 ==> batches.Some? && clientId in batches.value && r.count == |batches.value[clientId]|
    ensures r.count > 0 ==> r.chains == Named(Distinct(ChainNames(batches.value[clientId])))
    ensures r.count > 0 ==> r.text == NatToString(r.count) + " " + Noun(r.count) + " pending " + ChainText(r.chains) + ". Tap to view details."
    ensures forall c :: c in r.chains ==> c != ""
    ensures forall i, j :: 0 <= i < j < |r.chains| ==> r.chains[i] != r.chains[j]
  {
    if batches.None? || clientId == "" then NoSummary
    else
      var txs := if clientId in batches.value then batches.value[clientId] else [];
      if |txs| == 0 then NoSummary
      else
        var distinct := Distinct(ChainNames(txs));
        NamedKeepsDistinct(distinct);
        var chains := Named(distinct);
        Summary(|txs|, chains, NatToString(|txs|) + " " + Noun(|txs|) + " pending " + ChainText(chains) + ". Tap to view details.")
  }

  /** Every named chain of the wallet's transactions is listed exactly once. */
  lemma ChainsComplete(batches: map<string, seq<BatchTx>>, clientId: string, i: nat)
    requires clientId != "" && clientId in batches && i < |batches[clientId]|
    requires batches[clientId][i].chainDisplayName.Some? && batches[clientId][i].chainDisplayName.value != ""
    ensures batches[clientId][i].chainDisplayName.value in Summarize(Some(batches), clientId).chains
  {
    assert ChainNames(batches[clientId])[i] in ChainNames(batches[clientId]);
  }

  /** A name seen before adds nothing to the set; a new one is appended. */
  lemma DistinctSnoc(xs: seq<Option<string>>, x: Option<string>)
    ensures x in xs ==> Distinct(xs + [x]) == Distinct(xs)
    ensures x !in xs ==> Distinct(xs + [x]) == Distinct(xs) + [x]
  {
    assert (xs + [x])[..|xs|] == xs;
  }

  /** A name given twice is listed once. */
  lemma DistinctPair(x: Option<string>)
    ensures Distinct([x, x]) == [x]
  {
    assert [x][..0] == [];
    assert Distinct([x]) == [x];
    assert [x, x][..1] == [x];
  }

  /** Two transactions on the same chain name that chain once. */
  lemma OneChainExample()
    ensures Named(Distinct(ChainNames([BatchTx(Some("Tron")), BatchTx(Some("Tron"))]))) == ["Tron"]
  {
    var t := Some("Tron");
    assert ChainNames([BatchTx(t), BatchTx(t)]) == [t, t];
    DistinctPair(t);
    assert Named([t]) == ["Tron"];
  }

  /** The text as rendered for two transactions on one chain: the chain text brings
      its own leading space, so two spaces follow "pending". */
  lemma TextExample()
    ensures var r := Summarize(Some(map["w" := [BatchTx(Some("Tron")), BatchTx(Some("Tron"))]]), "w");
            && r.count == 2 && r.chains == ["Tron"]
            && r.text == "2" + " " + "transactions" + " pending " + " on Tron" + ". Tap to view details."
  {
    OneChainExample();
    assert ChainText(["Tron"]) == " on Tron";
    assert NatToString(2) == "2";
  }

  /** With no transactions the banner renders nothing and closes the details view. */
  function ShowDetails(count: nat, shown: bool): (r: bool)
    ensures count == 0 ==> !r
    ensures count > 0 ==> r == shown
  {
    if count == 0 then false else shown
  }
}
