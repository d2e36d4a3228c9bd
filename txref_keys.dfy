/** `extract_public_keys` and `process_address` of `extract.py`: the keys read off the
    `txrefs` list of one BlockCypher address document. */
module TxrefKeys {
  import opened Common
  import opened ScriptKey
  import opened Fetch

  /** One entry of `txrefs`, with or without a `script` field. */
  datatype TxRef = TxRef(script: Option<string>)

  /** The parsed address document, with or without a `txrefs` list. */
  datatype AddressDoc = AddressDoc(txrefs: Option<seq<TxRef>>)

  /** The key an entry contributes under the `extract.py` rule. */
  function EntryKey(item: TxRef): Option<string> {
    if item.script.Some? then LastSixtySix(item.script.value) else None
  }

  /** The keys of the entries `items`, collected as the loop collects them. */
  function EntryKeys(items: seq<TxRef>): set<string> {
    if items == [] then {}
    else
      var last := items[|items| - 1];
      EntryKeys(items[..|items| - 1]) + (if EntryKey(last).Some? then {EntryKey(last).value} else {})
  }

  function DocKeys(doc: AddressDoc): set<string> {
    if doc.txrefs.Some? then EntryKeys(doc.txrefs.value) else {}
  }

  /** `extract_public_keys`: a loop that adds each long enough script's last 66
      characters to a set. */
  method ExtractPublicKeys(doc: AddressDoc) returns (publicKeys: set<string>)
    ensures publicKeys == DocKeys(doc)
  {
    publicKeys := {};
    if doc.txrefs.Some? {
      var items := doc.txrefs.value;
      for i := 0 to |items|
        invariant publicKeys == EntryKeys(items[..i])
      {
        assert items[..i + 1][..i] == items[..i];
        var item := items[i];
        if item.script.Some? {
          var script := item.script.value;
          if |script| > 66 {
            publicKeys := publicKeys + {script[|script| - 66..]};
          }
        }
      }
      assert items[..|items|] == items;
    }
  }

  /** A key is collected exactly when some entry's script is longer than 66 characters
      and ends in it; the order of the entries does not matter. */
  lemma {:induction false} EntryKeysMembership(items: seq<TxRef>, k: string)
    ensures k in EntryKeys(items) <==>
      exists i :: 0 <= i < |items| && items[i].script.Some? && |items[i].script.value| > CompressedLen
                  && k == Suffix(items[i].script.value, CompressedLen)
  {
    if items != [] {
      var init := items[..|items| - 1];
      EntryKeysMembership(init, k);
      if k in EntryKeys(init) {
        var i :| 0 <= i < |init| && init[i].script.Some? && |init[i].script.value| > CompressedLen
                 && k == Suffix(init[i].script.value, CompressedLen);
        assert items[i] == init[i];
      }
      if exists i :: 0 <= i < |items| && items[i].script.Some? && |items[i].script.value| > CompressedLen
                     && k == Suffix(items[i].script.value, CompressedLen) {
        var i :| 0 <= i < |items| && items[i].script.Some? && |items[i].script.value| > CompressedLen
                 && k == Suffix(items[i].script.value, CompressedLen);
        if i < |items| - 1 { assert init[i] == items[i]; }
      }
    }
  }

  /** Every collected key has 66 characters, and a document without `txrefs` gives none. */
  lemma DocKeysShape(doc: AddressDoc)
    ensures doc.txrefs.None? ==> DocKeys(doc) == {}
    ensures forall k :: k in DocKeys(doc) ==> |k| == CompressedLen
  {
    if doc.txrefs.Some? {
      forall k | k in DocKeys(doc) ensures |k| == CompressedLen {
        EntryKeysMembership(doc.txrefs.value, k);
      }
    }
  }

  /** Entries without a script, or whose script has at most 66 characters, add nothing. */
  lemma {:induction false} ShortEntriesAddNothing(items: seq<TxRef>, extra: seq<TxRef>)
    requires forall i :: 0 <= i < |extra| ==> extra[i].script.None? || |extra[i].script.value| <= CompressedLen
    ensures EntryKeys(items + extra) == EntryKeys(items)
    decreases |extra|
  {
    if extra != [] {
      var init := extra[..|extra| - 1];
      assert (items + extra)[..|items + extra| - 1] == items + init;
      ShortEntriesAddNothing(items, init);
    } else {
      assert items + extra == items;
    }
  }

  /** `process_address`: None when the fetch gives nothing or the document yields no key,
      otherwise the non-empty key set. (A document that Python finds falsy, such as an
      empty object, has no `txrefs` and so yields no key either.) */
  function ProcessAddress(responses: seq<Response<AddressDoc>>): (r: Option<set<string>>)
    requires MaxRetries <= |responses|
    ensures r.Some? ==> r.value != {}
    ensures FetchRun(responses).result.None? ==> r.None?
    ensures FetchRun(responses).result.Some? ==>
      (r.None? <==> DocKeys(FetchRun(responses).result.value) == {})
    ensures r.Some? ==> r.value == DocKeys(FetchRun(responses).result.value)
  {
    var data := FetchRun(responses).result;
    if data.Some? then
      var publicKeys := DocKeys(data.value);
      if publicKeys != {} then Some(publicKeys) else None
    else None
  }

  /** A 404 on the first attempt means no keys. */
  lemma NotFoundMeansNoKeys(responses: seq<Response<AddressDoc>>)
    requires MaxRetries <= |responses|
    requires responses[0].Reply? && responses[0].status == 404
    ensures ProcessAddress(responses) == None
  {
    FetchStopsAtFirstFinal(responses, 0);
  }
}
