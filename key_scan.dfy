/** `extract_public_keys.py`: the keys spent from one address, read off the full
    address object that the BlockCypher client library returns, and the driver that
    writes every address's keys to the output. */
module KeyScan {
  import opened Common
  import opened ScriptKey

  /** A field of a JSON object: absent, explicitly `null`, or present with a value. */
  datatype Field<T> = Missing | Null | Present(value: T)

  /** One transaction input, with its `addresses` list and its `script`. */
  datatype Input = Input(addresses: Field<seq<string>>, script: Field<string>)

  /** One transaction, with its `inputs` list. */
  datatype Tx = Tx(inputs: Field<seq<Input>>)

  /** The outcome of `get_address_full(address)`: the library raised, or it returned the
      address object, with or without a `txs` list. */
  datatype Lookup = LookupFailed | Fetched(txs: Field<seq<Tx>>)

  /** Scanning a transaction raises when it has no `inputs` list to iterate (KeyError or
      TypeError) or when one of its inputs has `addresses: null` (`address in None`). */
  predicate TxRaises(tx: Tx) {
    || !tx.inputs.Present?
    || exists inp :: inp in tx.inputs.value && inp.addresses.Null?
  }

  predicate TxsRaise(txs: seq<Tx>) {
    exists tx :: tx in txs && TxRaises(tx)
  }

  /** The key an input contributes: only an input whose `addresses` names the target and
      that carries a `script` is passed to the extractor. A `null` script makes the
      extractor's `len` raise, which it catches itself, so it contributes nothing. */
  function InputKey(address: string, inp: Input): Option<string> {
    if inp.addresses.Present? && address in inp.addresses.value && inp.script.Present? then
      ExtractPublicKeyFromScript(inp.script.value)
    else None
  }

  function InputsKeys(address: string, inputs: seq<Input>): set<string> {
    if inputs == [] then {}
    else
      var k := InputKey(address, inputs[|inputs| - 1]);
      InputsKeys(address, inputs[..|inputs| - 1]) + (if k.Some? then {k.value} else {})
  }

  function TxsKeys(address: string, txs: seq<Tx>): set<string> {
    if txs == [] then {}
    else
      var tx := txs[|txs| - 1];
      TxsKeys(address, txs[..|txs| - 1]) + (if tx.inputs.Present? then InputsKeys(address, tx.inputs.value) else {})
  }

  /** What `extract_and_compress_public_keys` returns: the empty set when the lookup
      raises, when there is no `txs` list (a `null` one raises on iteration) or when any
      part of the scan raises; otherwise every key found. */
  function FoundPublicKeys(address: string, lookup: Lookup): set<string> {
    match lookup
    case LookupFailed => {}
    case Fetched(txs) => if txs.Present? && !TxsRaise(txs.value) then TxsKeys(address, txs.value) else {}
  }

  /** `extract_and_compress_public_keys`: nested loops over transactions and inputs that
      fill a set; an exception anywhere discards what was found so far. */
  method ExtractAndCompressPublicKeys(address: string, lookup: Lookup) returns (foundPublicKeys: set<string>)
    ensures foundPublicKeys == FoundPublicKeys(address, lookup)
  {
    if lookup.LookupFailed? {
      return {};
    }
    foundPublicKeys := {};
    if !lookup.txs.Present? {
      return {};
    }
    var txs := lookup.txs.value;
    for t := 0 to |txs|
      invariant !TxsRaise(txs[..t])
      invariant foundPublicKeys == TxsKeys(address, txs[..t])
    {
      assert txs[..t + 1][..t] == txs[..t];
      var tx := txs[t];
      if !tx.inputs.Present? {
        assert tx in txs;
        return {};
      }
      var inputs := tx.inputs.value;
      for j := 0 to |inputs|
        invariant forall inp :: inp in inputs[..j] ==> !inp.addresses.Null?
        invariant foundPublicKeys == TxsKeys(address, txs[..t]) + InputsKeys(address, inputs[..j])
      {
        assert inputs[..j + 1][..j] == inputs[..j];
        var input := inputs[j];
        if input.addresses.Null? {
          assert tx in txs && TxRaises(tx);
          return {};
        }
        if input.addresses.Present? && address in input.addresses.value {
          if input.script.Present? {
            var publicKey := ExtractPublicKeyFromScript(input.script.value);
            if publicKey.Some? {
              foundPublicKeys := foundPublicKeys + {publicKey.value};
            }
          }
        }
      }
      assert inputs[..|inputs|] == inputs;
      assert !TxRaises(tx);
      RaiseSnoc(txs, t);
    }
    assert txs[..|txs|] == txs;
  }

  lemma RaiseSnoc(txs: seq<Tx>, t: nat)
    requires t < |txs|
    requires !TxsRaise(txs[..t]) && !TxRaises(txs[t])
    ensures !TxsRaise(txs[..t + 1])
  {
    assert txs[..t + 1] == txs[..t] + [txs[t]];
  }

  lemma RaiseSplit(txs: seq<Tx>, tx: Tx)
    ensures TxsRaise(txs + [tx]) <==> TxsRaise(txs) || TxRaises(tx)
  {
    assert tx in txs + [tx];
    assert forall t :: t in txs ==> t in txs + [tx];
  }

  /** A key comes from an input exactly when that input lists the target address,
      carries a script, and the extractor finds the key in it. */
  lemma {:induction false} InputsKeysMembership(address: string, inputs: seq<Input>, k: string)
    ensures k in InputsKeys(address, inputs) <==> exists inp :: inp in inputs && InputKey(address, inp) == Some(k)
  {
    if inputs != [] {
      var init, last := inputs[..|inputs| - 1], inputs[|inputs| - 1];
      assert inputs == init + [last];
      InputsKeysMembership(address, init, k);
    }
  }

  /** The keys of a transaction list are the extractions of the matching inputs of its
      transactions, whatever their order. */
  lemma {:induction false} TxsKeysMembership(address: string, txs: seq<Tx>, k: string)
    ensures k in TxsKeys(address, txs) <==>
      exists tx, inp :: tx in txs && tx.inputs.Present? && inp in tx.inputs.value && InputKey(address, inp) == Some(k)
  {
    if txs != [] {
      var init, last := txs[..|txs| - 1], txs[|txs| - 1];
      assert txs == init + [last];
      TxsKeysMembership(address, init, k);
      if last.inputs.Present? {
        InputsKeysMembership(address, last.inputs.value, k);
      }
    }
  }

  /** Reordering (or repeating) transactions does not change the result. */
  lemma TxOrderIrrelevant(address: string, txs1: seq<Tx>, txs2: seq<Tx>)
    requires forall tx :: tx in txs1 <==> tx in txs2
    ensures FoundPublicKeys(address, Fetched(Present(txs1))) == FoundPublicKeys(address, Fetched(Present(txs2)))
  {
    assert TxsRaise(txs1) == TxsRaise(txs2);
    forall k ensures k in TxsKeys(address, txs1) <==> k in TxsKeys(address, txs2) {
      TxsKeysMembership(address, txs1, k);
      TxsKeysMembership(address, txs2, k);
    }
  }

  /** Reordering (or repeating) the inputs of one transaction does not change the result. */
  lemma InputOrderIrrelevant(address: string, txs: seq<Tx>, t: nat, inputs: seq<Input>)
    requires t < |txs| && txs[t].inputs.Present?
    requires forall inp :: inp in inputs <==> inp in txs[t].inputs.value
    ensures FoundPublicKeys(address, Fetched(Present(txs[t := Tx(Present(inputs))])))
         == FoundPublicKeys(address, Fetched(Present(txs)))
  {
    var txs' := txs[t := Tx(Present(inputs))];
    SameInputsSameScan(address, txs', txs);
  }

  /** Two transaction lists whose transactions agree pairwise on their sets of inputs
      scan alike. */
  lemma {:induction false} SameInputsSameScan(address: string, txs1: seq<Tx>, txs2: seq<Tx>)
    requires |txs1| == |txs2|
    requires forall i :: 0 <= i < |txs1| ==> txs1[i].inputs.Present? == txs2[i].inputs.Present?
    requires forall i :: 0 <= i < |txs1| && txs1[i].inputs.Present? ==>
               (forall inp :: inp in txs1[i].inputs.value <==> inp in txs2[i].inputs.value)
    ensures TxsRaise(txs1) == TxsRaise(txs2)
    ensures TxsKeys(address, txs1) == TxsKeys(address, txs2)
  {
    if txs1 != [] {
      var n := |txs1| - 1;
      SameInputsSameScan(address, txs1[..n], txs2[..n]);
      assert txs1 == txs1[..n] + [txs1[n]] && txs2 == txs2[..n] + [txs2[n]];
      RaiseSplit(txs1[..n], txs1[n]);
      RaiseSplit(txs2[..n], txs2[n]);
      if txs1[n].inputs.Present? {
        forall k ensures k in InputsKeys(address, txs1[n].inputs.value) <==> k in InputsKeys(address, txs2[n].inputs.value) {
          InputsKeysMembership(address, txs1[n].inputs.value, k);
          InputsKeysMembership(address, txs2[n].inputs.value, k);
        }
        assert TxRaises(txs1[n]) == TxRaises(txs2[n]);
      }
    }
  }

  /** Every key found is key-shaped and is the tail of the script of an input that names
      the target address. */
  lemma FoundKeysAreScriptTails(address: string, lookup: Lookup, k: string)
    requires k in FoundPublicKeys(address, lookup)
    ensures IsKeyShaped(k)
    ensures exists tx, inp :: tx in lookup.txs.value && tx.inputs.Present? && inp in tx.inputs.value
              && inp.addresses.Present? && address in inp.addresses.value
              && inp.script.Present? && |k| <= |inp.script.value| && k == Suffix(inp.script.value, |k|)
  {
    TxsKeysMembership(address, lookup.txs.value, k);
  }

  /** A transaction that makes the scan raise discards every key found before it. */
  lemma FailureDiscardsEarlierKeys(address: string, txs: seq<Tx>, bad: Tx)
    requires TxRaises(bad)
    ensures FoundPublicKeys(address, Fetched(Present(txs + [bad]))) == {}
  {
    assert bad in txs + [bad];
  }

  /** The key set of each address, in order. */
  function FoundSets(addresses: seq<string>, lookups: seq<Lookup>): (ks: seq<set<string>>)
    requires |lookups| == |addresses|
    ensures |ks| == |addresses| && forall i :: 0 <= i < |ks| ==> ks[i] == FoundPublicKeys(addresses[i], lookups[i])
  {
    seq(|addresses|, i requires 0 <= i < |addresses| => FoundPublicKeys(addresses[i], lookups[i]))
  }

  /** `main`: the addresses of the file are scanned in turn; `lookups` holds what the
      library gives for each of them. */
  method WriteAllKeys(lines: seq<string>, lookups: seq<Lookup>)
    returns (written: seq<string>, ghost chunks: seq<seq<string>>)
    requires |lookups| == |Addresses(lines)|
    ensures |chunks| == |lookups| && written == Flatten(chunks)
    ensures forall i :: 0 <= i < |chunks| ==> Enumerates(chunks[i], FoundPublicKeys(Addresses(lines)[i], lookups[i]))
    ensures forall k :: multiset(written)[k] == CountHolding(FoundSets(Addresses(lines), lookups), k)
  {
    var addresses := Addresses(lines);
    written, chunks := WriteKeysOf(addresses, lookups);
  }

  /** The loop of `main`: each address's keys are written one per line, in set iteration
      order. Keys are not deduplicated across addresses, so the output holds every key
      once for each address that yields it. */
  method WriteKeysOf(addresses: seq<string>, lookups: seq<Lookup>)
    returns (written: seq<string>, ghost chunks: seq<seq<string>>)
    requires |lookups| == |addresses|
    ensures |chunks| == |lookups| && written == Flatten(chunks)
    ensures forall i :: 0 <= i < |chunks| ==> Enumerates(chunks[i], FoundPublicKeys(addresses[i], lookups[i]))
    ensures forall k :: multiset(written)[k] == CountHolding(FoundSets(addresses, lookups), k)
  {
    written, chunks := [], [];
    for i := 0 to |addresses|
      invariant |chunks| == i && written == Flatten(chunks)
      invariant forall j :: 0 <= j < i ==> Enumerates(chunks[j], FoundPublicKeys(addresses[j], lookups[j]))
    {
      var publicKeys := ExtractAndCompressPublicKeys(addresses[i], lookups[i]);
      ghost var before := written;
      if publicKeys != {} {
        written := WriteEach(publicKeys, written);
      } else {
        EnumeratesEmpty(publicKeys);
      }
      FlattenSnoc(chunks, written[|before|..]);
      chunks := chunks + [written[|before|..]];
    }
    CountsOfListings(chunks, FoundSets(addresses, lookups));
  }

  /** Listings of the key sets, concatenated, hold each key once per set that has it. */
  lemma CountsOfListings<K(!new)>(chunks: seq<seq<K>>, ks: seq<set<K>>)
    requires |chunks| == |ks|
    requires forall i :: 0 <= i < |ks| ==> Enumerates(chunks[i], ks[i])
    ensures forall k :: multiset(Flatten(chunks))[k] == CountHolding(ks, k)
  {
    forall k ensures multiset(Flatten(chunks))[k] == CountHolding(ks, k) {
      WrittenOncePerAddress(chunks, ks, k);
    }
  }

  /** The inner loop `for pk in public_keys: out_file.write(...)`. */
  method WriteEach<K(==, !new)>(publicKeys: set<K>, written: seq<K>) returns (written': seq<K>)
    ensures |written| <= |written'| && written' == written + written'[|written|..]
    ensures Enumerates(written'[|written|..], publicKeys)
  {
    ghost var added: seq<K> := [];
    written' := written;
    var remaining := publicKeys;
    while remaining != {}
      invariant remaining <= publicKeys
      invariant written' == written + added
      invariant Enumerates(added, publicKeys - remaining)
      decreases remaining
    {
      var pk :| pk in remaining;
      remaining := remaining - {pk};
      added := added + [pk];
      written' := written' + [pk];
    }
    assert written'[|written|..] == added;
  }

  /** How many of the key sets hold `k`. */
  function CountHolding<K>(ks: seq<set<K>>, k: K): nat {
    if ks == [] then 0 else CountHolding(ks[..|ks| - 1], k) + (if k in ks[|ks| - 1] then 1 else 0)
  }

  /** A key is written once for every address that yields it: an address never writes a
      key twice, but two addresses that share a key both write it. */
  lemma {:induction false} WrittenOncePerAddress<K(!new)>(chunks: seq<seq<K>>, ks: seq<set<K>>, k: K)
    requires |chunks| == |ks|
    requires forall i :: 0 <= i < |ks| ==> Enumerates(chunks[i], ks[i])
    ensures multiset(Flatten(chunks))[k] == CountHolding(ks, k)
  {
    if chunks != [] {
      var n := |chunks| - 1;
      WrittenOncePerAddress(chunks[..n], ks[..n], k);
      assert chunks == chunks[..n] + [chunks[n]];
      EnumeratedOnce(chunks[n], ks[n], k);
    }
  }

  lemma {:induction false} EnumeratedOnce<K(!new)>(c: seq<K>, keys: set<K>, k: K)
    requires Enumerates(c, keys)
    ensures multiset(c)[k] == if k in keys then 1 else 0
  {
    if c != [] {
      var n := |c| - 1;
      assert c == c[..n] + [c[n]];
      assert Enumerates(c[..n], keys - {c[n]}) by {
        forall x ensures x in c[..n] <==> x in keys - {c[n]} {
          if x in c[..n] {
            var j :| 0 <= j < n && c[..n][j] == x;
            assert c[j] == x;
          }
        }
      }
      EnumeratedOnce(c[..n], keys - {c[n]}, k);
    }
  }
}
