# btc-publickey-extractor, modelled in Dafny

The repository holds two command-line scripts. Each reads Bitcoin addresses from a file, one address per line. For every address it asks BlockCypher for the address's history. It then collects the public keys that appear at the end of the unlocking scripts of the transactions that spent from the address, and writes those keys to an output file.

- `extract.py` calls the REST endpoint directly.
  - A bounded retry loop handles rate limits (HTTP 429) and transient errors.
  - Each address is processed in a worker with a 15-second timeout.
  - The last 66 hex characters of every script longer than 66 characters are taken as a key.
  - Addresses are split into "found" and "not found".
  - A key is written only the first time it is seen, across all addresses.
- `extract_public_keys.py` uses the `blockcypher` client library.
  - It walks the inputs of every transaction.
  - It keeps an input only when the input names the address.
  - It applies a prefix-checked extractor to the input's script. That extractor looks for a compressed key (`02`/`03`, 66 hex characters), then an uncompressed one (`04`, 130 hex characters).
  - Any exception during the scan discards the address's keys.
  - It writes every address's keys without deduplicating across addresses.

Modules:

- `Common` (`common.dfy`):
  - Python's `str.strip`;
  - the address-file filter `[line.strip() for line in f if line.strip()]`, which both scripts use;
  - `Option`;
  - `Enumerates`, which describes the unspecified iteration order of a Python set as a duplicate-free listing of its elements.
- `ScriptKey` (`script_key.dfy`): the two key-location rules.
- `Fetch` (`fetch.dfy`): `get_data_from_blockcypher`.
  - The network is replaced by the sequence of answers the server gives to successive attempts.
  - `time.sleep` is replaced by the list of pauses requested.
  - A specification function `FetchRun` is paired with the imperative retry loop.
- `TxrefKeys` (`txref_keys.dfy`): `extract_public_keys` and `process_address` of `extract.py`.
- `Driver` (`driver.dfy`): `main` of `extract.py`. The worker outcome of each address is a parameter: the responses it saw, or a timeout.
- `KeyScan` (`key_scan.dfy`): `extract_and_compress_public_keys` and `main` of `extract_public_keys.py`.
  - A JSON field is `Missing`, `Null` or `Present`, because a `null` where a list is expected raises.
  - The library call either fails or returns the address object.

The model follows the code in three places:

- `extract.py` does not use the prefix-checked extractor. It takes the last 66 characters of any script strictly longer than 66 characters. `ScriptKey.RulesDisagreeOnBareKey` shows a script on which the two rules differ.
- A worker timeout is not retried. The timeout branch prints "Retrying...", but both branches of the `while True` loop end in `break`, so a timed-out address is reported as not found.
- The `if not address: continue` check in both `main` functions can never fire. `Common.Addresses` only yields non-blank, stripped addresses (`IsAddress`).

## Model

| member | source | states |
|---|---|---|
| Common.Strip | extract.py:76 | the result is the line with a whitespace-only prefix and a whitespace-only suffix removed; it is empty exactly when every character is Python whitespace; otherwise it neither starts nor ends with whitespace |
| Common.Addresses | extract.py:76 | never more addresses than lines, and every listed address is non-empty with no surrounding whitespace |
| Common.AddressesAppend | extract.py:76 | filtering a file split in two gives the two filtered halves, concatenated: order is kept and each line is judged on its own |
| Common.AddressesMembership | extract_public_keys.py:58 | an address is listed exactly when it is non-empty and some line strips to it |
| ScriptKey.ExtractPublicKeyFromScript | extract_public_keys.py:9-25 | a returned key is key-shaped and is a tail of the script; a 130-character result means the 66-character tail was not key-shaped; None means neither tail is key-shaped |
| ScriptKey.ExtractFindsShortestKeyTail | extract_public_keys.py:15-20 | a key is returned if and only if the 66- or 130-character tail is key-shaped, and the compressed tail wins when both are |
| ScriptKey.CompressedTakesPrecedence | extract_public_keys.py:15-18 | a script whose 66-character tail starts with `03` and whose 130-character tail starts with `04` yields the 66-character key |
| ScriptKey.ShortScriptYieldsNothing | extract_public_keys.py:15-22 | a script shorter than 66 characters, the empty one included, yields no key |
| ScriptKey.LastSixtySix | extract.py:53-54 | a key is taken exactly when the script is longer than 66 characters, and it is the script's last 66 characters |
| ScriptKey.RulesDisagreeOnBareKey | extract.py:53-54 | a bare 66-character `02` key is found by the prefix-checked rule but ignored by the `> 66` rule |
| Fetch.GetDataFromBlockcypher | extract.py:20-41 | the loop returns the value, the request count and the pauses of the retry specification `FetchRun` |
| Fetch.FetchBounds | extract.py:23-41 | one to five requests, at most one pause per request, and a value only from a 200 reply |
| Fetch.FetchReaches | extract.py:23-40 | while no answer is a parsed 200 or a 404, the loop goes on to the next attempt after sleeping once per answer |
| Fetch.FetchStopsAtFirstFinal | extract.py:26-30 | the first parsed 200 returns its body and the first 404 returns None, after k+1 requests, with no further pause |
| Fetch.FetchGivesUp | extract.py:23-41 | without a final answer in five attempts, the run makes five requests, sleeps after each one and returns None |
| Fetch.RateLimitedPause | extract.py:31-35 | a 429 costs one pause of Retry-After seconds (60 without the header) and no 2-second pause |
| Fetch.TransientPause | extract.py:36-40 | any other status, an unparsable body or a request exception costs exactly a 2-second pause |
| Fetch.RateLimitedThenSuccess | extract.py:31-35 | a 429 asking for 2 seconds followed by a good reply gives two requests, the pauses [2] and the second body |
| TxrefKeys.ExtractPublicKeys | extract.py:43-56 | the loop over `txrefs` collects exactly `DocKeys` |
| TxrefKeys.EntryKeysMembership | extract.py:49-55 | a key is collected if and only if some entry has a script longer than 66 characters that ends in it |
| TxrefKeys.DocKeysShape | extract.py:49-55 | every collected key has 66 characters, and a document without `txrefs` gives none |
| TxrefKeys.ShortEntriesAddNothing | extract.py:51-53 | appending entries without a script, or with a script of at most 66 characters, changes nothing |
| TxrefKeys.ProcessAddress | extract.py:58-64 | None when the fetch gives nothing; otherwise None exactly when the document yields no key, else the non-empty key set |
| TxrefKeys.NotFoundMeansNoKeys | extract.py:28-30 | a 404 on the first attempt means no keys |
| Driver.ExtractAll | extract.py:66-106 | found and not-found lists are the addresses with and without keys, in file order; the written lines list every key once, each address writing the keys it is the first to yield |
| Driver.ProcessAddresses | extract.py:79-106 | the per-address loop keeps the found/not-found split, the set of keys seen and the first-seen output as invariants |
| Driver.WriteNewKeys | extract.py:98-101 | the inner loop writes exactly the keys not seen before, each once, and adds them to the seen set |
| Driver.PartitionOfAddresses | extract.py:95-106 | every address lands in exactly one of the two summary lists |
| Driver.EmptyIsNotFound | extract.py:95-106 | an address with no keys is in the not-found list, and one with keys is in the found list |
| Driver.TimeoutIsNotFound | extract.py:85-106 | an address whose worker timed out is reported as not found |
| KeyScan.ExtractAndCompressPublicKeys | extract_public_keys.py:27-50 | the nested loops return exactly `FoundPublicKeys`, and the empty set when anything raises |
| KeyScan.InputsKeysMembership | extract_public_keys.py:39-45 | a key comes from an input's list if and only if some input names the address, carries a script, and the extractor finds the key in it |
| KeyScan.TxsKeysMembership | extract_public_keys.py:38-46 | a key is found if and only if some input of some transaction yields it |
| KeyScan.TxOrderIrrelevant | extract_public_keys.py:38-46 | reordering or repeating transactions does not change the result |
| KeyScan.InputOrderIrrelevant | extract_public_keys.py:39-45 | reordering or repeating the inputs of one transaction does not change the result |
| KeyScan.SameInputsSameScan | extract_public_keys.py:38-46 | transaction lists that agree pairwise on their input sets raise alike and find the same keys |
| KeyScan.FoundKeysAreScriptTails | extract_public_keys.py:38-46 | every key found is key-shaped and is the tail of the script of an input that names the address |
| KeyScan.FailureDiscardsEarlierKeys | extract_public_keys.py:48-50 | a transaction that makes the scan raise empties the result, whatever was found before it |
| KeyScan.WriteAllKeys | extract_public_keys.py:52-75 | for the addresses of the file, the output is, address by address, a duplicate-free listing of that address's keys, and each key appears once for every address that yields it |
| KeyScan.WriteKeysOf | extract_public_keys.py:61-73 | the loop over the addresses writes each address's keys once, with no deduplication across addresses: a key's count in the output is the number of addresses that yield it |
| KeyScan.WriteEach | extract_public_keys.py:70-71 | the inner loop appends each key of the set exactly once |
| KeyScan.WrittenOncePerAddress | extract_public_keys.py:60-71 | a key is written once for every address that yields it, so keys shared by two addresses are written twice |
| KeyScan.EnumeratedOnce | extract_public_keys.py:70-71 | a listing of a set holds each member exactly once and nothing else |

## Left out

- The HTTP layer (`requests.get`, its 10-second timeout and the URL), the `blockcypher` library and JSON decoding are replaced by parameters: the sequence of responses, or the lookup outcome.
- `time.sleep` is not performed. The model records the requested pauses.
- The `multiprocessing` pool and `result.get(timeout=15)` are reduced to a per-address outcome: finished with the responses seen, or timed out. Which outcome occurs is a parameter: the model does not tie `Finished` to the 15-second budget, so it admits finished runs whose pauses exceed it. In the program, for example, a 429 without Retry-After asks for a 60-second sleep, the timeout always fires first, and the address is reported as not found.
- File I/O is not modelled: the existence check, reading the address file, and opening and writing the output file. The address file is a sequence of lines, and the output is the sequence of lines written.
- Console output (`print`) and the summary printout are not modelled. The summary lists themselves are.
- Fetch.StepOf: a 200 whose body does not parse is treated as a request exception (2-second pause). This assumes requests 2.27 or later, where `JSONDecodeError` is a `RequestException`; with older versions the ValueError escapes the loop.
- Fetch.GetDataFromBlockcypher: a Retry-After header that is not a non-negative integer is not modelled. For a non-numeric header `int()` raises ValueError, and for a negative one `time.sleep` does; the loop catches neither.
- TxrefKeys.ExtractPublicKeys: a `txrefs` value other than a list of objects, and a `script` other than a string, are not modelled. Some of these raise (a `null` `txrefs` or a numeric script); others pass silently (a string `txrefs` is iterated by character and `"script" in item` tests for a substring, and a short list as script fails `len(script) > 66`).
- TxrefKeys.ProcessAddress: a parsed body that is not a JSON object is not modelled.
- KeyScan.ExtractAndCompressPublicKeys: an `addresses` field holding a string instead of a list is not modelled. Python's `in` would then test for a substring. Non-string scripts are limited to `null`, which makes the extractor return None.
- The server's answers must cover all five attempts (`MaxRetries <= |responses|`). This is only a convention about the parameter: the model never reads answers after the loop stops.
