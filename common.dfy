/** Shared vocabulary: an optional value, Python's whitespace stripping, and the
    address-file filter that both command-line drivers apply to their input. */
module Common {

  datatype Option<+T> = None | Some(value: T) {
    function GetOr(default: T): T {
      match this
      case Some(v) => v
      case None => default
    }
  }

  /** The characters Python's `str.isspace()` accepts (and `str.strip()` removes). */
  predicate IsSpace(c: char) {
    || c == ' '
    || ('\t' <= c <= '\r')
    || ('\U{1C}' <= c <= '\U{1F}')
    || c == '\U{85}' || c == '\U{A0}' || c == '\U{1680}'
    || ('\U{2000}' <= c <= '\U{200A}')
    || c == '\U{2028}' || c == '\U{2029}' || c == '\U{202F}' || c == '\U{205F}' || c == '\U{3000}'
  }

  predicate AllSpace(s: string) {
    forall i :: 0 <= i < |s| ==> IsSpace(s[i])
  }

  /** Removes leading whitespace: the result is a suffix of `s`, and what was cut is whitespace. */
  function TrimStart(s: string): (r: string)
    ensures |r| <= |s| && r == s[|s| - |r|..]
    ensures forall i :: 0 <= i < |s| - |r| ==> IsSpace(s[i])
    ensures r != [] ==> !IsSpace(r[0])
  {
    if s != [] && IsSpace(s[0]) then TrimStart(s[1..]) else s
  }

  /** Removes trailing whitespace: the result is a prefix of `s`, and what was cut is whitespace. */
  function TrimEnd(s: string): (r: string)
    ensures |r| <= |s| && r == s[..|r|]
    ensures forall i :: |r| <= i < |s| ==> IsSpace(s[i])
    ensures r != [] ==> !IsSpace(r[|r| - 1])
  {
    if s != [] && IsSpace(s[|s| - 1]) then TrimEnd(s[..|s| - 1]) else s
  }

  /** Python's `line.strip()`: the line with its leading and trailing whitespace runs
      removed. */
  function Strip(s: string): (r: string)
    ensures exists i :: 0 <= i <= |s| - |r| && r == s[i..i + |r|] && AllSpace(s[..i]) && AllSpace(s[i + |r|..])
    ensures r == "" <==> AllSpace(s)
    ensures r != "" ==> !IsSpace(r[0]) && !IsSpace(r[|r| - 1])
  {
    var t := TrimStart(s);
    var r := TrimEnd(t);
    TrimmedIsInfix(s, t, r);
    r
  }

  /** Cutting a whitespace prefix and then a whitespace suffix leaves an infix of `s`
      with whitespace on both sides. */
  lemma TrimmedIsInfix(s: string, t: string, r: string)
    requires |t| <= |s| && t == s[|s| - |t|..] && forall k :: 0 <= k < |s| - |t| ==> IsSpace(s[k])
    requires |r| <= |t| && r == t[..|r|] && forall k :: |r| <= k < |t| ==> IsSpace(t[k])
    ensures var i := |s| - |t|;
      0 <= i <= |s| - |r| && r == s[i..i + |r|] && AllSpace(s[..i]) && AllSpace(s[i + |r|..])
  {
    var i := |s| - |t|;
    assert s[i..i + |r|] == t[..|r|];
    var tail := s[i + |r|..];
    forall k | 0 <= k < |tail| ensures IsSpace(tail[k]) {
      assert tail[k] == t[|r| + k];
    }
  }

  /** A usable address: non-empty, with no whitespace at either end. */
  predicate IsAddress(a: string) {
    a != "" && !IsSpace(a[0]) && !IsSpace(a[|a| - 1])
  }

  /** `[line.strip() for line in f if line.strip()]`: the stripped non-blank lines, in file order. */
  function Addresses(lines: seq<string>): (r: seq<string>)
    ensures |r| <= |lines|
    ensures forall a :: a in r ==> IsAddress(a)
  {
    if lines == [] then []
    else
      var a := Strip(lines[0]);
      var rest := Addresses(lines[1..]);
      if a != "" then [a] + rest else rest
  }

  lemma AddressesCons(x: string, rest: seq<string>)
    ensures Addresses([x] + rest) == (if Strip(x) != "" then [Strip(x)] else []) + Addresses(rest)
  {
    assert ([x] + rest)[1..] == rest;
    assert [] + Addresses(rest) == Addresses(rest);
  }

  /** Filtering commutes with splitting the file: no line is reordered, and each line
      is judged on its own. */
  lemma {:induction false} AddressesAppend(l1: seq<string>, l2: seq<string>)
    ensures Addresses(l1 + l2) == Addresses(l1) + Addresses(l2)
  {
    if l1 == [] {
      assert l1 + l2 == l2;
    } else {
      var x, tail := l1[0], l1[1..];
      assert l1 == [x] + tail;
      assert l1 + l2 == [x] + (tail + l2);
      AddressesCons(x, tail + l2);
      AddressesCons(x, tail);
      AddressesAppend(tail, l2);
      ConcatAssoc(if Strip(x) != "" then [Strip(x)] else [], Addresses(tail), Addresses(l2));
    }
  }

  lemma ConcatAssoc<T>(a: seq<T>, b: seq<T>, c: seq<T>)
    ensures a + (b + c) == (a + b) + c
  {
  }

  /** An address is listed exactly when some line strips to it; blank lines never reach the drivers. */
  lemma {:induction false} AddressesMembership(lines: seq<string>, a: string)
    ensures a in Addresses(lines) <==> a != "" && exists i :: 0 <= i < |lines| && Strip(lines[i]) == a
  {
    if lines != [] {
      var x, tail := lines[0], lines[1..];
      assert lines == [x] + tail;
      AddressesCons(x, tail);
      AddressesMembership(tail, a);
      if a in Addresses(tail) {
        var i :| 0 <= i < |tail| && Strip(tail[i]) == a;
        assert Strip(lines[i + 1]) == a;
      }
      if a != "" && exists i :: 0 <= i < |lines| && Strip(lines[i]) == a {
        var i :| 0 <= i < |lines| && Strip(lines[i]) == a;
        if i > 0 { assert Strip(tail[i - 1]) == a; }
      }
    }
  }

  /** No duplicates in a sequence. */
  predicate NoDups<T(==)>(s: seq<T>) {
    forall i, j :: 0 <= i < j < |s| ==> s[i] != s[j]
  }

  /** A duplicate-free listing of exactly the elements of `keys`, in some order (Python's
      iteration order over a set is unspecified). */
  ghost predicate Enumerates<T(!new)>(s: seq<T>, keys: set<T>) {
    NoDups(s) && (forall k :: k in s <==> k in keys)
  }

  lemma EnumeratesEmpty<T(!new)>(keys: set<T>)
    requires keys == {}
    ensures Enumerates([], keys)
  {
  }

  function Flatten<T>(chunks: seq<seq<T>>): seq<T> {
    if chunks == [] then [] else Flatten(chunks[..|chunks| - 1]) + chunks[|chunks| - 1]
  }

  lemma FlattenSnoc<T>(chunks: seq<seq<T>>, c: seq<T>)
    ensures Flatten(chunks + [c]) == Flatten(chunks) + c
  {
    assert (chunks + [c])[..|chunks|] == chunks;
  }

  lemma AppendEmpty<T>(s: seq<T>)
    ensures s + [] == s
  {
  }

  lemma PrefixAll<T>(s: seq<T>)
    ensures s[..|s|] == s
  {
  }
}
