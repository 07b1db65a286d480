/** Values and string operations shared by the whole model: optional values,
    identifiers, the JavaScript string built-ins the handlers call (trim,
    split, toLowerCase, toUpperCase, includes), sequence filtering and the
    skip/limit paging every list handler applies. */
module Common {

  datatype Option<+T> = None | Some(value: T)

  /** Every document identifier (an ObjectId in its 24-hex string form). */
  type Id = string

  // ---------------------------------------------------------------------
  // Whitespace and trimming (String.prototype.trim)
  // ---------------------------------------------------------------------

  /** The characters ECMAScript's trim removes: WhiteSpace and LineTerminator. */
  predicate IsSpace(c: char)
  {
    c == ' ' || c == '\t' || c == '\n' || c == '\r' || c == '\U{000B}' || c == '\U{000C}'
    || c == '\U{00A0}' || c == '\U{1680}' || ('\U{2000}' <= c <= '\U{200A}')
    || c == '\U{2028}' || c == '\U{2029}' || c == '\U{202F}' || c == '\U{205F}'
    || c == '\U{3000}' || c == '\U{FEFF}'
  }

  function TrimStart(s: string): (r: string)
    ensures |r| <= |s| && r == s[|s| - |r|..]
    ensures forall i :: 0 <= i < |s| - |r| ==> IsSpace(s[i])
    ensures r != [] ==> !IsSpace(r[0])
  {
    if s == [] || !IsSpace(s[0]) then s else TrimStart(s[1..])
  }

  function TrimEnd(s: string): (r: string)
    ensures |r| <= |s| && r == s[..|r|]
    ensures forall i :: |r| <= i < |s| ==> IsSpace(s[i])
    ensures r != [] ==> !IsSpace(r[|r| - 1])
  {
    if s == [] || !IsSpace(s[|s| - 1]) then s else TrimEnd(s[..|s| - 1])
  }

  /** `s.trim()`: the input with its leading and trailing whitespace cut off;
      what remains neither starts nor ends with whitespace. */
  function Trim(s: string): (r: string)
    ensures |r| <= |s|
    ensures r != [] ==> !IsSpace(r[0]) && !IsSpace(r[|r| - 1])
  {
    var t := TrimStart(s);
    var r := TrimEnd(t);
    assert r != [] ==> r[0] == t[0];
    r
  }

  /** What Trim cuts off is whitespace, and the result is the slice between. */
  lemma TrimSlice(s: string)
    ensures var k := |s| - |TrimStart(s)|; var r := Trim(s);
      k + |r| <= |s| && r == s[k..k + |r|]
      && (forall i :: 0 <= i < k ==> IsSpace(s[i]))
      && (forall i :: k + |r| <= i < |s| ==> IsSpace(s[i]))
  {
    var t := TrimStart(s);
    var r := TrimEnd(t);
    var k := |s| - |t|;
    assert t == s[k..];
    forall i | k + |r| <= i < |s|
      ensures IsSpace(s[i])
    {
      assert s[i] == t[i - k];
    }
  }

  /** `!s || s.trim() === ""` for a string that is present. */
  predicate IsBlank(s: string)
  {
    Trim(s) == []
  }

  /** A string is blank exactly when every character in it is whitespace. */
  lemma {:induction false} BlankIffAllSpace(s: string)
    ensures IsBlank(s) <==> forall i :: 0 <= i < |s| ==> IsSpace(s[i])
  {
    var t := TrimStart(s);
    if t != [] {
      assert !IsSpace(t[0]);
      assert s[|s| - |t|] == t[0];
    }
  }

  /** Trimming twice is trimming once. */
  lemma TrimIdempotent(s: string)
    ensures Trim(Trim(s)) == Trim(s)
  {
    var r := Trim(s);
    assert TrimStart(r) == r;
  }

  // ---------------------------------------------------------------------
  // Case mapping (ASCII letters only)
  // ---------------------------------------------------------------------

  function LowerChar(c: char): char
  {
    if 'A' <= c <= 'Z' then (c as int + 32) as char else c
  }

  function UpperChar(c: char): char
  {
    if 'a' <= c <= 'z' then (c as int - 32) as char else c
  }

  function ToLower(s: string): (r: string)
    ensures |r| == |s|
    ensures forall i :: 0 <= i < |s| ==> r[i] == LowerChar(s[i])
  {
    if s == [] then [] else [LowerChar(s[0])] + ToLower(s[1..])
  }

  function ToUpper(s: string): (r: string)
    ensures |r| == |s|
    ensures forall i :: 0 <= i < |s| ==> r[i] == UpperChar(s[i])
  {
    if s == [] then [] else [UpperChar(s[0])] + ToUpper(s[1..])
  }

  // ---------------------------------------------------------------------
  // Splitting and joining (String.prototype.split with a one-character
  // separator, Array.prototype.join)
  // ---------------------------------------------------------------------

  function IndexOfChar(s: string, c: char): (i: nat)
    requires c in s
    ensures i < |s| && s[i] == c && c !in s[..i]
  {
    if s[0] == c then 0 else 1 + IndexOfChar(s[1..], c)
  }

  /** `s` holds `pat` starting at position `i`. */
  predicate OccursAt(s: string, pat: string, i: nat)
  {
    i + |pat| <= |s| && s[i..i + |pat|] == pat
  }

  /** The first position from `from` on where `pat` occurs, if any. */
  function FindFrom(s: string, pat: string, from: nat): (r: Option<nat>)
    requires from <= |s|
    ensures r.Some? ==> from <= r.value && OccursAt(s, pat, r.value)
    ensures r.Some? ==> forall j: nat :: from <= j < r.value ==> !OccursAt(s, pat, j)
    ensures r.None? ==> forall j: nat :: from <= j ==> !OccursAt(s, pat, j)
    decreases |s| - from
  {
    if OccursAt(s, pat, from) then Some(from)
    else if from == |s| then None
    else FindFrom(s, pat, from + 1)
  }

  /** `s.replace(pat, "")` with a string pattern: the first occurrence of
      `pat` is cut out, and `s` is kept when there is none. */
  function RemoveFirst(s: string, pat: string): (r: string)
    ensures (forall j: nat :: !OccursAt(s, pat, j)) ==> r == s
    ensures forall i: nat :: OccursAt(s, pat, i) && (forall j: nat :: j < i ==> !OccursAt(s, pat, j)) ==>
      r == s[..i] + s[i + |pat|..]
  {
    match FindFrom(s, pat, 0)
    case None => s
    case Some(i) =>
      assert forall k: nat :: OccursAt(s, pat, k) && (forall j: nat :: j < k ==> !OccursAt(s, pat, j)) ==> k == i by {
        forall k: nat | OccursAt(s, pat, k) && (forall j: nat :: j < k ==> !OccursAt(s, pat, j)) ensures k == i {
          if k < i { assert false; } else if i < k { assert false; }
        }
      }
      s[..i] + s[i + |pat|..]
  }

  /** A string that starts with `pat` loses exactly that prefix. */
  lemma RemoveLeadingPrefix(pat: string, rest: string)
    ensures RemoveFirst(pat + rest, pat) == rest
  {
    var s := pat + rest;
    assert s[0..|pat|] == pat;
    assert OccursAt(s, pat, 0);
    assert s[|pat|..] == rest;
  }

  /** `s.split(sep)`: the pieces between separators, empty pieces included. */
  function Split(s: string, sep: char): (parts: seq<string>)
    ensures |parts| >= 1
    ensures forall i :: 0 <= i < |parts| ==> sep !in parts[i]
    decreases |s|
  {
    if sep !in s then [s]
    else
      var i := IndexOfChar(s, sep);
      [s[..i]] + Split(s[i + 1..], sep)
  }

  /** `parts.join(sep)` for a one-character separator. */
  function JoinChar(parts: seq<string>, sep: char): string
    requires |parts| >= 1
  {
    if |parts| == 1 then parts[0] else parts[0] + [sep] + JoinChar(parts[1..], sep)
  }

  /** `parts.join(sep)` for any separator string; the empty array joins to "". */
  function Join(parts: seq<string>, sep: string): string
  {
    if parts == [] then "" else if |parts| == 1 then parts[0] else parts[0] + sep + Join(parts[1..], sep)
  }

  /** Joining the pieces of a split gives back the original string. */
  lemma {:induction false} JoinSplit(s: string, sep: char)
    ensures JoinChar(Split(s, sep), sep) == s
    decreases |s|
  {
    if sep in s {
      var i := IndexOfChar(s, sep);
      var rest := Split(s[i + 1..], sep);
      assert Split(s, sep) == [s[..i]] + rest;
      assert JoinChar(Split(s, sep), sep) == s[..i] + [sep] + JoinChar(rest, sep);
      JoinSplit(s[i + 1..], sep);
      assert s == s[..i] + [sep] + s[i + 1..];
    }
  }

  /** Splitting a join of separator-free pieces gives back the pieces. */
  lemma {:induction false} SplitJoin(parts: seq<string>, sep: char)
    requires |parts| >= 1
    requires forall i :: 0 <= i < |parts| ==> sep !in parts[i]
    ensures Split(JoinChar(parts, sep), sep) == parts
  {
    if |parts| > 1 {
      var s := JoinChar(parts, sep);
      var rest := JoinChar(parts[1..], sep);
      assert s == parts[0] + [sep] + rest;
      assert sep in s by { assert s[|parts[0]|] == sep; }
      var i := IndexOfChar(s, sep);
      assert i == |parts[0]|;
      assert s[..i] == parts[0];
      assert s[i + 1..] == rest;
      SplitJoin(parts[1..], sep);
    }
  }

  // ---------------------------------------------------------------------
  // Sequences
  // ---------------------------------------------------------------------

  /** `xs.filter(p)`: the elements satisfying `p`, in their original order. */
  function Filter<T>(xs: seq<T>, p: T -> bool): (r: seq<T>)
    ensures |r| <= |xs|
    ensures forall i :: 0 <= i < |r| ==> p(r[i]) && r[i] in xs
    ensures forall i :: 0 <= i < |xs| && p(xs[i]) ==> xs[i] in r
  {
    if xs == [] then []
    else if p(xs[0]) then [xs[0]] + Filter(xs[1..], p)
    else Filter(xs[1..], p)
  }

  lemma {:induction false} FilterAppend<T>(xs: seq<T>, ys: seq<T>, p: T -> bool)
    ensures Filter(xs + ys, p) == Filter(xs, p) + Filter(ys, p)
  {
    if xs != [] {
      assert (xs + ys)[0] == xs[0];
      assert (xs + ys)[1..] == xs[1..] + ys;
      FilterAppend(xs[1..], ys, p);
      if p(xs[0]) {
        calc {
          Filter(xs + ys, p);
          [xs[0]] + Filter(xs[1..] + ys, p);
          [xs[0]] + (Filter(xs[1..], p) + Filter(ys, p));
        }
      }
    } else {
      assert xs + ys == ys;
    }
  }

  /** Filtering keeps the multiplicity of every kept element. */
  lemma {:induction false} FilterMultiset<T>(xs: seq<T>, p: T -> bool)
    ensures multiset(Filter(xs, p)) <= multiset(xs)
    ensures forall x :: p(x) ==> multiset(Filter(xs, p))[x] == multiset(xs)[x]
  {
    if xs != [] {
      FilterMultiset(xs[1..], p);
      assert xs == [xs[0]] + xs[1..];
      assert multiset(xs) == multiset{xs[0]} + multiset(xs[1..]);
      if p(xs[0]) {
        assert Filter(xs, p) == [xs[0]] + Filter(xs[1..], p);
        assert multiset(Filter(xs, p)) == multiset{xs[0]} + multiset(Filter(xs[1..], p));
      } else {
        assert Filter(xs, p) == Filter(xs[1..], p);
      }
    }
  }

  /** No element occurs twice. */
  predicate NoRepeats<T(==)>(xs: seq<T>)
  {
    forall i, j :: 0 <= i < j < |xs| ==> xs[i] != xs[j]
  }

  /** A sequence without repeats has as many distinct elements as entries. */
  lemma {:induction false} NoRepeatsCard<T>(xs: seq<T>)
    requires NoRepeats(xs)
    ensures |set x | x in xs| == |xs|
  {
    if xs != [] {
      NoRepeatsCard(xs[1..]);
      assert (set x | x in xs) == {xs[0]} + (set x | x in xs[1..]);
      assert xs[0] !in xs[1..] by {
        forall m | 0 <= m < |xs[1..]| ensures xs[1..][m] != xs[0] {
          assert xs[1..][m] == xs[m + 1];
        }
      }
    }
  }

  /** A sequence has at most as many distinct elements as entries. */
  lemma {:induction false} SetCardAtMost<T>(xs: seq<T>)
    ensures |set x | x in xs| <= |xs|
  {
    if xs != [] {
      SetCardAtMost(xs[1..]);
      assert (set x | x in xs) == {xs[0]} + (set x | x in xs[1..]);
    }
  }

  /** Two predicates that agree on every element filter alike. */
  lemma {:induction false} FilterExt<T>(xs: seq<T>, p: T -> bool, q: T -> bool)
    requires forall i :: 0 <= i < |xs| ==> p(xs[i]) == q(xs[i])
    ensures Filter(xs, p) == Filter(xs, q)
  {
    if xs != [] {
      FilterExt(xs[1..], p, q);
    }
  }

  /** `xs.findIndex(p)`: the first position satisfying `p`, or -1. */
  function FirstIndex<T>(xs: seq<T>, p: T -> bool): (i: int)
    ensures -1 <= i < |xs|
    ensures 0 <= i ==> p(xs[i]) && forall j :: 0 <= j < i ==> !p(xs[j])
    ensures i == -1 <==> forall j :: 0 <= j < |xs| ==> !p(xs[j])
  {
    if xs == [] then -1
    else if p(xs[0]) then 0
    else
      var k := FirstIndex(xs[1..], p);
      if k == -1 then -1 else k + 1
  }

  /** The sequence without the element at position `i` (`splice(i, 1)`). */
  function RemoveAt<T>(xs: seq<T>, i: nat): (r: seq<T>)
    requires i < |xs|
    ensures |r| == |xs| - 1
    ensures forall j :: 0 <= j < i ==> r[j] == xs[j]
    ensures forall j :: i <= j < |r| ==> r[j] == xs[j + 1]
  {
    xs[..i] + xs[i + 1..]
  }

  // ---------------------------------------------------------------------
  // Unique indexes
  // ---------------------------------------------------------------------

  /** No two rows share a key: what a unique index guarantees. */
  ghost predicate DistinctKeys<T, K>(xs: seq<T>, key: T -> K)
  {
    forall i, j :: 0 <= i < j < |xs| ==> key(xs[i]) != key(xs[j])
  }

  /** No row has key `k`. */
  ghost predicate KeyAbsent<T, K>(xs: seq<T>, key: T -> K, k: K)
  {
    forall i :: 0 <= i < |xs| ==> key(xs[i]) != k
  }

  /** Inserting a row whose key is absent keeps the index unique. */
  lemma DistinctKeysAppend<T, K>(xs: seq<T>, key: T -> K, v: T)
    requires DistinctKeys(xs, key) && KeyAbsent(xs, key, key(v))
    ensures DistinctKeys(xs + [v], key)
  {
    var t := xs + [v];
    forall i, j | 0 <= i < j < |t| ensures key(t[i]) != key(t[j]) {
      assert t[i] == xs[i];
    }
  }

  /** Rewriting a row without changing its key keeps the index unique. */
  lemma DistinctKeysUpdate<T, K>(xs: seq<T>, key: T -> K, i: nat, v: T)
    requires DistinctKeys(xs, key) && i < |xs| && key(v) == key(xs[i])
    ensures DistinctKeys(xs[i := v], key)
  {
  }

  /** Deleting rows keeps the index unique. */
  lemma {:induction false} DistinctKeysFilter<T, K>(xs: seq<T>, key: T -> K, p: T -> bool)
    requires DistinctKeys(xs, key)
    ensures DistinctKeys(Filter(xs, p), key)
  {
    if xs != [] {
      DistinctKeysFilter(xs[1..], key, p);
      if p(xs[0]) {
        var r := Filter(xs, p);
        var rest := Filter(xs[1..], p);
        assert r == [xs[0]] + rest;
        forall j | 0 < j < |r| ensures key(r[0]) != key(r[j]) {
          assert r[j] == rest[j - 1];
          var k :| 0 <= k < |xs[1..]| && xs[1..][k] == rest[j - 1];
          assert xs[1..][k] == xs[k + 1];
        }
      }
    }
  }

  lemma DistinctKeysRemoveAt<T, K>(xs: seq<T>, key: T -> K, i: nat)
    requires DistinctKeys(xs, key) && i < |xs|
    ensures DistinctKeys(RemoveAt(xs, i), key)
  {
    var t := RemoveAt(xs, i);
    forall a, b | 0 <= a < b < |t| ensures key(t[a]) != key(t[b]) {
      var a' := if a < i then a else a + 1;
      var b' := if b < i then b else b + 1;
      assert t[a] == xs[a'] && t[b] == xs[b'];
    }
  }

  /** With a unique key, the row holding a key is the only one. */
  lemma DistinctKeysOnly<T, K>(xs: seq<T>, key: T -> K, i: nat, j: nat)
    requires DistinctKeys(xs, key) && i < |xs| && j < |xs| && key(xs[i]) == key(xs[j])
    ensures i == j
  {
  }

  /** Number of elements satisfying `p` (a `countDocuments` with that filter). */
  function Count<T>(xs: seq<T>, p: T -> bool): nat
  {
    |Filter(xs, p)|
  }

  /** The number of documents `.skip((page - 1) * limit)` passes over. */
  function Skip(page: nat, limit: nat): nat
    requires page >= 1
  {
    (page - 1) * limit
  }

  /** `.skip((page - 1) * limit).limit(limit)` on an already ordered result. */
  function Page<T>(xs: seq<T>, page: nat, limit: nat): (r: seq<T>)
    requires page >= 1
    ensures |r| <= limit
    ensures forall i :: 0 <= i < |r| ==> Skip(page, limit) + i < |xs| && r[i] == xs[Skip(page, limit) + i]
    ensures Skip(page, limit) + limit <= |xs| ==> |r| == limit
    ensures page == 1 && |xs| <= limit ==> r == xs
  {
    var start := Skip(page, limit);
    if start >= |xs| then [] else if start + limit >= |xs| then xs[start..] else xs[start..start + limit]
  }

  /** `Math.ceil(total / limit)` for a positive limit. */
  function CeilDiv(total: nat, limit: nat): (r: nat)
    requires limit >= 1
    ensures (r == 0) <==> (total == 0)
    ensures r * limit >= total
    ensures r >= 1 ==> (r - 1) * limit < total
  {
    (total + limit - 1) / limit
  }

  lemma MulMono(a: nat, b: nat, c: nat)
    requires a <= b
    ensures a * c <= b * c
  {
  }

  /** Item `k` of a list of `n` sits on page `k / limit + 1`, which is within
      `CeilDiv(n, limit)`. */
  lemma {:induction false} PageOfIndex(n: nat, limit: nat, k: nat)
    requires limit >= 1 && k < n
    ensures var page := k / limit + 1;
      Skip(page, limit) <= k < Skip(page, limit) + limit && page <= CeilDiv(n, limit)
  {
    var q := k / limit;
    assert q * limit <= k < q * limit + limit;
    assert Skip(q + 1, limit) == q * limit;
    var total := CeilDiv(n, limit);
    if total < q + 1 {
      MulMono(total, q, limit);
      assert false;
    }
  }

  lemma {:induction false} OnItsPage<T>(xs: seq<T>, page: nat, limit: nat, k: nat)
    requires page >= 1 && k < |xs| && Skip(page, limit) <= k < Skip(page, limit) + limit
    ensures xs[k] in Page(xs, page, limit)
  {
    var start := Skip(page, limit);
    var shown := Page(xs, page, limit);
    if start + limit >= |xs| {
      assert shown == xs[start..];
    } else {
      assert shown == xs[start..start + limit];
    }
    assert shown[k - start] == xs[k];
  }

  /** Page `page` holds item `k` only when `page` is `k / limit + 1`: an item
      is on exactly one page. */
  lemma {:induction false} OnlyPageOfIndex(limit: nat, k: nat, page: nat)
    requires limit >= 1 && page >= 1 && Skip(page, limit) <= k < Skip(page, limit) + limit
    ensures page == k / limit + 1
  {
    var q := page - 1;
    var d := k / limit;
    assert d * limit <= k < d * limit + limit;
    if d < q {
      MulMono(d + 1, q, limit);
      assert false;
    } else if d > q {
      MulMono(q + 1, d, limit);
      assert false;
    }
  }
}
