/** `main` of `extract.py`: every address of the file is processed once, under a
    15-second worker timeout, sorted into "found" or "not found", and every key is
    written once across all addresses, in the order it is first seen. */
module Driver {
  import opened Common
  import opened Fetch
  import opened TxrefKeys

  /** What the worker pool hands back for one address: the worker finished (after
      talking to a server that gave `responses`), or `result.get` timed out. */
  datatype WorkerRun = Finished(responses: seq<Response<AddressDoc>>) | TimedOut

  predicate WellFormed(run: WorkerRun) {
    run.Finished? ==> MaxRetries <= |run.responses|
  }

  /** The value `public_keys` holds after one pass: the worker's result, or None on timeout. */
  function WorkerResult(run: WorkerRun): Option<set<string>>
    requires WellFormed(run)
  {
    match run
    case Finished(responses) => ProcessAddress(responses)
    case TimedOut => None
  }

  /** The keys an address contributes (empty for None, as Python's truthiness has it). */
  function KeysOf(run: WorkerRun): set<string>
    requires WellFormed(run)
  {
    WorkerResult(run).GetOr({})
  }

  function KeySets(runs: seq<WorkerRun>): (ks: seq<set<string>>)
    requires forall i :: 0 <= i < |runs| ==> WellFormed(runs[i])
    ensures |ks| == |runs| && forall i :: 0 <= i < |runs| ==> ks[i] == KeysOf(runs[i])
  {
    seq(|runs|, i requires 0 <= i < |runs| => KeysOf(runs[i]))
  }

  /** The addresses whose key set is non-empty, in order. */
  function FoundOf<A, K>(addrs: seq<A>, ks: seq<set<K>>): seq<A>
    requires |addrs| == |ks|
  {
    if addrs == [] then []
    else FoundOf(addrs[..|addrs| - 1], ks[..|ks| - 1]) + (if ks[|ks| - 1] != {} then [addrs[|addrs| - 1]] else [])
  }

  /** The addresses whose key set is empty, in order. */
  function NotFoundOf<A, K>(addrs: seq<A>, ks: seq<set<K>>): seq<A>
    requires |addrs| == |ks|
  {
    if addrs == [] then []
    else NotFoundOf(addrs[..|addrs| - 1], ks[..|ks| - 1]) + (if ks[|ks| - 1] == {} then [addrs[|addrs| - 1]] else [])
  }

  /** Every key of the first `|ks|` addresses. */
  function UnionOf<K>(ks: seq<set<K>>): set<K> {
    if ks == [] then {} else UnionOf(ks[..|ks| - 1]) + ks[|ks| - 1]
  }

  /** The pieces written per address: address `i` writes its keys not seen before it,
      each once, in set iteration order. */
  ghost predicate FirstSeenChunks<K(!new)>(chunks: seq<seq<K>>, ks: seq<set<K>>) {
    |chunks| == |ks| && forall i :: 0 <= i < |ks| ==> Enumerates(chunks[i], ks[i] - UnionOf(ks[..i]))
  }

  /** The driver, with the file contents as `lines` and the worker outcome of each listed
      address as `runs`. It returns the two summary lists and the lines written to the
      output file; `chunks` splits the output by address. */
  method ExtractAll(lines: seq<string>, runs: seq<WorkerRun>)
    returns (found: seq<string>, notFound: seq<string>, written: seq<string>, ghost chunks: seq<seq<string>>)
    requires |runs| == |Addresses(lines)|
    requires forall i :: 0 <= i < |runs| ==> WellFormed(runs[i])
    ensures found == FoundOf(Addresses(lines), KeySets(runs))
    ensures notFound == NotFoundOf(Addresses(lines), KeySets(runs))
    ensures written == Flatten(chunks) && FirstSeenChunks(chunks, KeySets(runs))
    ensures Enumerates(written, UnionOf(KeySets(runs)))
  {
    var addresses := Addresses(lines);
    found, notFound, written, chunks := ProcessAddresses(addresses, runs);
  }

  /** The loop over the addresses: one worker run per address, then the address is
      filed as found or not found and its new keys are written. */
  method ProcessAddresses(addresses: seq<string>, runs: seq<WorkerRun>)
    returns (found: seq<string>, notFound: seq<string>, written: seq<string>, ghost chunks: seq<seq<string>>)
    requires |runs| == |addresses|
    requires forall i :: 0 <= i < |runs| ==> WellFormed(runs[i])
    ensures found == FoundOf(addresses, KeySets(runs))
    ensures notFound == NotFoundOf(addresses, KeySets(runs))
    ensures written == Flatten(chunks) && FirstSeenChunks(chunks, KeySets(runs))
    ensures Enumerates(written, UnionOf(KeySets(runs)))
  {
    ghost var ks := KeySets(runs);
    found, notFound, written, chunks := [], [], [], [];
    var uniquePublicKeys: set<string> := {};
    for i := 0 to |addresses|
      invariant found == FoundOf(addresses[..i], ks[..i])
      invariant notFound == NotFoundOf(addresses[..i], ks[..i])
      invariant uniquePublicKeys == UnionOf(ks[..i])
      invariant written == Flatten(chunks) && FirstSeenChunks(chunks, ks[..i])
      invariant Enumerates(written, uniquePublicKeys)
    {
      SortSnoc(addresses, ks, i);
      UnionSnoc(ks, i);
      var address := addresses[i];
      // one pass of the `while True` loop: both branches end in `break`
      var publicKeys := WorkerResult(runs[i]);
      assert ks[i] == publicKeys.GetOr({});
      ghost var chunk: seq<string> := [];
      if publicKeys.Some? && publicKeys.value != {} {
        found := found + [address];
        ghost var before := written;
        uniquePublicKeys, written := WriteNewKeys(publicKeys.value, uniquePublicKeys, written);
        chunk := written[|before|..];
      } else {
        notFound := notFound + [address];
        AppendEmpty(written);
        EnumeratesEmpty(ks[i] - UnionOf(ks[..i]));
      }
      ChunksExtend(chunks, ks, i, chunk);
      FlattenSnoc(chunks, chunk);
      chunks := chunks + [chunk];
    }
    PrefixAll(addresses);
    PrefixAll(ks);
  }

  /** The inner loop `for pk in public_keys`: a key not yet written is added to
      `unique_public_keys` and written; a key already written is skipped. */
  method WriteNewKeys<K(==, !new)>(publicKeys: set<K>, unique: set<K>, written: seq<K>)
    returns (unique': set<K>, written': seq<K>)
    requires Enumerates(written, unique)
    ensures unique' == unique + publicKeys
    ensures |written| <= |written'| && written' == written + written'[|written|..]
    ensures Enumerates(written'[|written|..], publicKeys - unique)
    ensures Enumerates(written', unique')
  {
    unique' := unique;
    ghost var added: seq<K> := [];
    written' := written;
    var remaining := publicKeys;
    while remaining != {}
      invariant remaining <= publicKeys
      invariant unique' == unique + (publicKeys - remaining)
      invariant written' == written + added
      invariant Enumerates(added, (publicKeys - remaining) - unique)
      invariant Enumerates(written', unique')
      decreases remaining
    {
      var pk :| pk in remaining;
      remaining := remaining - {pk};
      if pk !in unique' {
        unique' := unique' + {pk};
        added := added + [pk];
        written' := written' + [pk];
      }
    }
    assert written'[|written|..] == added;
  }

  lemma SortSnoc<A, K>(addrs: seq<A>, ks: seq<set<K>>, i: nat)
    requires |addrs| == |ks| && i < |ks|
    ensures FoundOf(addrs[..i + 1], ks[..i + 1]) == FoundOf(addrs[..i], ks[..i]) + (if ks[i] != {} then [addrs[i]] else [])
    ensures NotFoundOf(addrs[..i + 1], ks[..i + 1]) == NotFoundOf(addrs[..i], ks[..i]) + (if ks[i] == {} then [addrs[i]] else [])
  {
    assert addrs[..i + 1][..i] == addrs[..i];
    assert ks[..i + 1][..i] == ks[..i];
  }

  lemma UnionSnoc<K>(ks: seq<set<K>>, i: nat)
    requires i < |ks|
    ensures UnionOf(ks[..i + 1]) == UnionOf(ks[..i]) + ks[i]
  {
    assert ks[..i + 1][..i] == ks[..i];
  }

  lemma ChunksExtend<K(!new)>(chunks: seq<seq<K>>, ks: seq<set<K>>, i: nat, c: seq<K>)
    requires i < |ks|
    requires FirstSeenChunks(chunks, ks[..i])
    requires Enumerates(c, ks[i] - UnionOf(ks[..i]))
    ensures FirstSeenChunks(chunks + [c], ks[..i + 1])
  {
    var ks' := ks[..i + 1];
    assert ks'[..i] == ks[..i];
    forall j | 0 <= j < i ensures ks'[..j] == ks[..i][..j] {}
  }

  /** Each address lands in exactly one of the two summary lists, in file order. */
  lemma {:induction false} PartitionOfAddresses<A, K>(addrs: seq<A>, ks: seq<set<K>>)
    requires |addrs| == |ks|
    ensures multiset(FoundOf(addrs, ks)) + multiset(NotFoundOf(addrs, ks)) == multiset(addrs)
  {
    if addrs != [] {
      var n := |addrs| - 1;
      var a, k := addrs[..n], ks[..n];
      PartitionOfAddresses(a, k);
      var f, g := FoundOf(a, k), NotFoundOf(a, k);
      var x := addrs[n];
      assert addrs == a + [x];
      assert multiset(addrs) == multiset(a) + multiset{x};
      if ks[n] != {} {
        assert FoundOf(addrs, ks) == f + [x];
        assert NotFoundOf(addrs, ks) == g;
        assert multiset(f + [x]) == multiset(f) + multiset{x};
      } else {
        assert FoundOf(addrs, ks) == f;
        assert NotFoundOf(addrs, ks) == g + [x];
        assert multiset(g + [x]) == multiset(g) + multiset{x};
      }
    }
  }

  /** An address whose worker timed out, or returned no key, is reported as not found. */
  lemma {:induction false} EmptyIsNotFound<A, K>(addrs: seq<A>, ks: seq<set<K>>, i: nat)
    requires |addrs| == |ks| && i < |ks|
    ensures ks[i] == {} ==> addrs[i] in NotFoundOf(addrs, ks)
    ensures ks[i] != {} ==> addrs[i] in FoundOf(addrs, ks)
  {
    var n := |addrs| - 1;
    if i < n {
      EmptyIsNotFound(addrs[..n], ks[..n], i);
    }
  }

  lemma TimeoutIsNotFound(addresses: seq<string>, runs: seq<WorkerRun>, i: nat)
    requires |runs| == |addresses|
    requires forall j :: 0 <= j < |runs| ==> WellFormed(runs[j])
    requires i < |runs| && runs[i].TimedOut?
    ensures addresses[i] in NotFoundOf(addresses, KeySets(runs))
  {
    EmptyIsNotFound(addresses, KeySets(runs), i);
  }
}
