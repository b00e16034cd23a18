/**
 * The string operations of Python that the title builder relies on, restricted
 * to ASCII: `str.lower`, `str.capitalize`, `str.strip`, `str.startswith`, the
 * `in` substring test, `str.replace`, `str.join` and `filter(None, ...)`.
 * Characters outside ASCII are left unchanged by every case mapping here.
 */
module Text {
  import opened Wrappers

  // ---------------------------------------------------------------------------
  // Characters

  /** The ASCII characters Python's `str.isspace` accepts. */
  predicate IsSpace(c: char) {
    c == ' ' || (9 <= c as int <= 13) || (28 <= c as int <= 31)
  }

  predicate IsUpper(c: char) { 'A' <= c <= 'Z' }

  predicate IsLower(c: char) { 'a' <= c <= 'z' }

  function LowerChar(c: char): (d: char)
    ensures IsUpper(c) ==> IsLower(d)
    ensures !IsUpper(c) ==> d == c
    ensures IsSpace(d) == IsSpace(c)
  {
    if IsUpper(c) then (c as int + 32) as char else c
  }

  function UpperChar(c: char): (d: char)
    ensures IsLower(c) ==> IsUpper(d)
    ensures !IsLower(c) ==> d == c
    ensures IsSpace(d) == IsSpace(c)
  {
    if IsLower(c) then (c as int - 32) as char else c
  }

  // ---------------------------------------------------------------------------
  // Case mapping

  /**
   * `s.lower()`: every ASCII capital replaced by its small letter, every
   * other character unchanged, so no capital is left.
   */
  function Lower(s: string): (r: string)
    ensures |r| == |s|
    ensures forall i | 0 <= i < |s| ::
              if IsUpper(s[i]) then IsLower(r[i]) && r[i] as int == s[i] as int + 32 else r[i] == s[i]
    ensures NoCapitals(r)
  {
    seq(|s|, i requires 0 <= i < |s| => LowerChar(s[i]))
  }

  /** `s.capitalize()`: the first character upper-cased, the rest lower-cased. */
  function Capitalize(s: string): (r: string)
    ensures |r| == |s|
    ensures s != [] ==> r[0] == UpperChar(s[0]) && r[1..] == Lower(s[1..])
  {
    if s == [] then [] else [UpperChar(s[0])] + Lower(s[1..])
  }

  /** No ASCII capital in `s`, so lower-casing leaves it alone. */
  predicate NoCapitals(s: string) {
    forall i | 0 <= i < |s| :: !IsUpper(s[i])
  }

  lemma LowerOfNoCapitals(s: string)
    requires NoCapitals(s)
    ensures Lower(s) == s
  {
  }

  lemma LowerConcat(a: string, b: string)
    ensures Lower(a + b) == Lower(a) + Lower(b)
  {
    assert forall i | 0 <= i < |a + b| :: Lower(a + b)[i] == (Lower(a) + Lower(b))[i];
  }

  /** Lower-casing a capitalized word of small letters gives the word back. */
  lemma LowerCapitalize(s: string)
    requires NoCapitals(s)
    ensures Lower(Capitalize(s)) == s
  {
    if s != [] {
      var r := Capitalize(s);
      forall i | 0 <= i < |s| ensures Lower(r)[i] == s[i] {
        if i > 0 {
          assert r[i] == r[1..][i - 1] == LowerChar(s[i]);
        }
      }
    }
  }

  // ---------------------------------------------------------------------------
  // Prefixes and substrings

  /** `s.startswith(p)`. */
  predicate IsPrefix(p: string, s: string) {
    |p| <= |s| && s[..|p|] == p
  }

  lemma PrefixOfPrefix(p: string, q: string, s: string)
    requires IsPrefix(p, q) && IsPrefix(q, s)
    ensures IsPrefix(p, s)
  {
    assert s[..|p|] == s[..|q|][..|p|];
  }

  /** `p` occurs in `s` starting at index `i`. */
  predicate Occurs(s: string, p: string, i: int) {
    0 <= i && i + |p| <= |s| && s[i..i + |p|] == p
  }

  /** Python's `p in s` on two strings. */
  predicate Contains(s: string, p: string) {
    exists i | 0 <= i <= |s| - |p| :: Occurs(s, p, i)
  }

  /**
   * Python's `in`: the empty string occurs in every string, a prefix occurs,
   * nothing longer than `s` does, and an occurrence survives text added on
   * either side.
   */
  lemma ContainsFacts(s: string, p: string, t: string)
    ensures Contains(s, [])
    ensures IsPrefix(p, s) ==> Contains(s, p)
    ensures |p| > |s| ==> !Contains(s, p)
    ensures Contains(s, p) ==> Contains(s + t, p) && Contains(t + s, p)
  {
    assert Occurs(s, [], 0);
    if IsPrefix(p, s) {
      assert Occurs(s, p, 0);
    }
    if Contains(s, p) {
      var i :| 0 <= i <= |s| - |p| && Occurs(s, p, i);
      assert (s + t)[i..i + |p|] == s[i..i + |p|];
      assert Occurs(s + t, p, i);
      assert (t + s)[|t| + i..|t| + i + |p|] == s[i..i + |p|];
      assert Occurs(t + s, p, |t| + i);
    }
  }

  /**
   * A pattern cannot occur where its first two characters never stand side by
   * side; this is how the absence of a word in a fixed string is shown.
   */
  lemma AbsentByPair(s: string, p: string)
    requires |p| >= 2
    requires forall i | 0 <= i < |s| - 1 :: !(s[i] == p[0] && s[i + 1] == p[1])
    ensures !Contains(s, p)
  {
    forall i | 0 <= i <= |s| - |p| ensures !Occurs(s, p, i) {
      assert !(s[i] == p[0] && s[i + 1] == p[1]);
      assert s[i..i + |p|][0] == s[i] && s[i..i + |p|][1] == s[i + 1];
    }
  }

  // ---------------------------------------------------------------------------
  // `str.replace`

  /** `s.replace(pat, rep)`: every occurrence, left to right, without overlap. */
  function ReplaceAll(s: string, pat: string, rep: string): (r: string)
    requires pat != []
    ensures rep == pat ==> r == s
    ensures !IsPrefix(pat, s) && s != [] ==> r != [] && r[0] == s[0]
    decreases |s|
  {
    if |s| < |pat| then s
    else if s[..|pat|] == pat then rep + ReplaceAll(s[|pat|..], pat, rep)
    else [s[0]] + ReplaceAll(s[1..], pat, rep)
  }

  /** Replacing a pattern that does not occur changes nothing. */
  lemma {:induction false} ReplaceAllAbsent(s: string, pat: string, rep: string)
    requires pat != [] && !Contains(s, pat)
    ensures ReplaceAll(s, pat, rep) == s
  {
    if |s| >= |pat| {
      assert !Occurs(s, pat, 0);
      if Contains(s[1..], pat) {
        var i :| 0 <= i <= |s[1..]| - |pat| && Occurs(s[1..], pat, i);
        assert s[1..][i..i + |pat|] == s[i + 1..i + 1 + |pat|];
        assert Occurs(s, pat, i + 1);
        assert false;
      }
      ReplaceAllAbsent(s[1..], pat, rep);
    }
  }

  /** A leading occurrence is replaced and scanning resumes after it. */
  lemma ReplaceAllLeading(pat: string, t: string, rep: string)
    requires pat != []
    ensures ReplaceAll(pat + t, pat, rep) == rep + ReplaceAll(t, pat, rep)
  {
    assert (pat + t)[..|pat|] == pat;
    assert (pat + t)[|pat|..] == t;
  }

  // ---------------------------------------------------------------------------
  // `str.strip`

  /** No whitespace at either end. */
  predicate Trimmed(s: string) {
    s == [] || (!IsSpace(s[0]) && !IsSpace(s[|s| - 1]))
  }

  /** `s.lstrip()`: the leading whitespace removed, and only that. */
  function TrimStart(s: string): (r: string)
    ensures |r| <= |s| && r == s[|s| - |r|..]
    ensures r == [] || !IsSpace(r[0])
    ensures forall k | 0 <= k < |s| - |r| :: IsSpace(s[k])
    decreases |s|
  {
    if s != [] && IsSpace(s[0]) then TrimStart(s[1..]) else s
  }

  /** `s.rstrip()`: the trailing whitespace removed, and only that. */
  function TrimEnd(s: string): (r: string)
    ensures |r| <= |s| && r == s[..|r|]
    ensures r == [] || !IsSpace(r[|r| - 1])
    ensures forall k | |r| <= k < |s| :: IsSpace(s[k])
    decreases |s|
  {
    if s != [] && IsSpace(s[|s| - 1]) then TrimEnd(s[..|s| - 1]) else s
  }

  lemma TrimEndKeepsStart(s: string)
    requires s == [] || !IsSpace(s[0])
    ensures TrimEnd(s) == [] || !IsSpace(TrimEnd(s)[0])
  {
  }

  /** `s.strip()`: whitespace removed from both ends, nothing else. */
  function Strip(s: string): (r: string)
    ensures Trimmed(r)
    ensures |r| <= |s|
    ensures exists i :: SpaceAround(s, i, r)
  {
    var t := TrimStart(s);
    TrimEndKeepsStart(t);
    var r := TrimEnd(t);
    TrimmedPiece(s, t, r);
    r
  }

  /** Cutting leading whitespace off `s` and then trailing whitespace off the rest leaves a piece with whitespace around it. */
  lemma TrimmedPiece(s: string, t: string, r: string)
    requires |t| <= |s| && t == s[|s| - |t|..] && forall k | 0 <= k < |s| - |t| :: IsSpace(s[k])
    requires |r| <= |t| && r == t[..|r|] && forall k | |r| <= k < |t| :: IsSpace(t[k])
    ensures SpaceAround(s, |s| - |t|, r)
  {
    var i := |s| - |t|;
    forall k | i + |r| <= k < |s| ensures IsSpace(s[k]) {
      assert s[k] == t[k - i];
    }
  }

  /** `r` is the piece of `s` from index `i` on, with only whitespace before and after it. */
  predicate SpaceAround(s: string, i: int, r: string) {
    0 <= i <= |s| - |r| && r == s[i..i + |r|]
    && (forall k | 0 <= k < i :: IsSpace(s[k]))
    && (forall k | i + |r| <= k < |s| :: IsSpace(s[k]))
  }

  /** Stripping a string without surrounding whitespace leaves it alone. */
  lemma StripTrimmed(s: string)
    requires Trimmed(s)
    ensures Strip(s) == s
  {
  }

  // ---------------------------------------------------------------------------
  // `str.join` and `filter(None, ...)`

  /** `sep.join(parts)`. */
  function Join(sep: string, parts: seq<string>): (r: string)
    ensures parts == [] ==> r == ""
    ensures |parts| == 1 ==> r == parts[0]
    ensures |parts| > 1 ==> IsPrefix(parts[0] + sep, r)
    decreases |parts|
  {
    if |parts| == 0 then ""
    else if |parts| == 1 then parts[0]
    else parts[0] + sep + Join(sep, parts[1..])
  }

  /** Where `parts[i]` starts in `Join(sep, parts)`: after each earlier part and one separator per earlier part. */
  function Offset(sep: string, parts: seq<string>, i: nat): (n: nat)
    requires i <= |parts|
    decreases i
  {
    if i == 0 then 0 else |parts[0]| + |sep| + Offset(sep, parts[1..], i - 1)
  }

  /** An occurrence moves right by the length of text put in front. */
  lemma OccursShift(pre: string, s: string, p: string, i: int)
    requires Occurs(s, p, i)
    ensures Occurs(pre + s, p, |pre| + i)
  {
    assert (pre + s)[|pre| + i..|pre| + i + |p|] == s[i..i + |p|];
  }

  /** A join starts with its first part, followed by the separator when more parts come. */
  lemma JoinFront(sep: string, parts: seq<string>)
    requires parts != []
    ensures Occurs(Join(sep, parts), parts[0], 0)
    ensures |parts| > 1 ==> Occurs(Join(sep, parts), sep, |parts[0]|)
  {
    var j := Join(sep, parts);
    if |parts| == 1 {
      assert j[0..|parts[0]|] == parts[0];
    } else {
      var pre := parts[0] + sep;
      assert j[..|pre|] == pre;
      assert j[0..|parts[0]|] == pre[0..|parts[0]|] == parts[0];
      assert j[|parts[0]|..|parts[0]| + |sep|] == pre[|parts[0]|..] == sep;
    }
  }

  /** Each part of a join stands at its offset. */
  lemma {:induction false} JoinParts(sep: string, parts: seq<string>)
    ensures forall i | 0 <= i < |parts| :: Occurs(Join(sep, parts), parts[i], Offset(sep, parts, i))
    decreases |parts|
  {
    if |parts| == 1 {
      JoinFront(sep, parts);
    } else if |parts| > 1 {
      var rest := parts[1..];
      var pre := parts[0] + sep;
      JoinParts(sep, rest);
      forall i | 0 <= i < |parts| ensures Occurs(Join(sep, parts), parts[i], Offset(sep, parts, i)) {
        if i == 0 {
          JoinFront(sep, parts);
        } else {
          assert parts[i] == rest[i - 1];
          OccursShift(pre, Join(sep, rest), rest[i - 1], Offset(sep, rest, i - 1));
        }
      }
    }
  }

  /** A separator follows every part of a join but the last. */
  lemma {:induction false} JoinSeparators(sep: string, parts: seq<string>)
    ensures forall i | 0 <= i < |parts| - 1 :: Occurs(Join(sep, parts), sep, Offset(sep, parts, i) + |parts[i]|)
    decreases |parts|
  {
    if |parts| > 1 {
      var rest := parts[1..];
      var pre := parts[0] + sep;
      JoinSeparators(sep, rest);
      forall i | 0 <= i < |parts| - 1 ensures Occurs(Join(sep, parts), sep, Offset(sep, parts, i) + |parts[i]|) {
        if i == 0 {
          JoinFront(sep, parts);
        } else {
          assert parts[i] == rest[i - 1];
          OccursShift(pre, Join(sep, rest), sep, Offset(sep, rest, i - 1) + |rest[i - 1]|);
        }
      }
    }
  }

  /** The last part of a join ends it. */
  lemma {:induction false} JoinLength(sep: string, parts: seq<string>)
    ensures parts != [] ==> |Join(sep, parts)| == Offset(sep, parts, |parts| - 1) + |parts[|parts| - 1]|
    decreases |parts|
  {
    if |parts| > 1 {
      var rest := parts[1..];
      JoinLength(sep, rest);
      assert parts[|parts| - 1] == rest[|rest| - 1];
    }
  }

  /** Every part occurs in the join. */
  lemma JoinContains(sep: string, parts: seq<string>)
    ensures forall x | x in parts :: Contains(Join(sep, parts), x)
  {
    JoinParts(sep, parts);
    forall x | x in parts ensures Contains(Join(sep, parts), x) {
      var i :| 0 <= i < |parts| && parts[i] == x;
      assert Occurs(Join(sep, parts), x, Offset(sep, parts, i));
    }
  }

  /** Joining non-empty trimmed parts gives a non-empty trimmed string that starts with the first part. */
  lemma {:induction false} JoinTrimmed(sep: string, parts: seq<string>)
    requires forall p | p in parts :: p != [] && Trimmed(p)
    ensures parts != [] ==> Join(sep, parts) != [] && Trimmed(Join(sep, parts)) && IsPrefix(parts[0], Join(sep, parts))
  {
    if |parts| == 1 {
      assert parts[0] in parts;
    } else if |parts| > 1 {
      assert parts[0] in parts;
      assert forall p | p in parts[1..] :: p in parts;
      JoinTrimmed(sep, parts[1..]);
      var rest := Join(sep, parts[1..]);
      assert Join(sep, parts) == parts[0] + sep + rest;
      assert (parts[0] + sep + rest)[..|parts[0]|] == parts[0];
    }
  }

  /** Python's truth value of a string that may be None: present and non-empty. */
  predicate Truthy(o: Option<string>) {
    o.Some? && o.value != ""
  }

  /** `list(filter(None, parts))`: the present, non-empty strings, in order. */
  function Present(parts: seq<Option<string>>): (r: seq<string>)
    ensures forall x | x in r :: x != "" && Some(x) in parts
    ensures forall o | o in parts && Truthy(o) :: o.value in r
    ensures |r| <= |parts|
    ensures parts != [] && Truthy(parts[0]) ==> r != [] && r[0] == parts[0].value
    ensures (forall o | o in parts :: !Truthy(o)) ==> r == []
    decreases |parts|
  {
    if parts == [] then []
    else (if Truthy(parts[0]) then [parts[0].value] else []) + Present(parts[1..])
  }

  /** `x` as it appears after an earlier part of a join: after `sep`, or not at all when empty. */
  function Glued(sep: string, x: string): (r: string) {
    if x == "" then "" else sep + x
  }

  /** What a join contributes after a part in front of `parts`. */
  function JoinedAfter(sep: string, parts: seq<string>): (r: string) {
    if parts == [] then "" else sep + Join(sep, parts)
  }

  /** Joining after a first part: that part, then the rest each after the separator. */
  lemma JoinCons(sep: string, x: string, parts: seq<string>)
    ensures Join(sep, [x] + parts) == x + JoinedAfter(sep, parts)
  {
    assert ([x] + parts)[1..] == parts;
  }

  /**
   * Concatenation regroups. Kept as a lemma so that the regrouping is proved
   * on three arbitrary strings rather than inside the larger proofs that use it.
   */
  lemma ConcatAssoc(x: string, y: string, z: string)
    ensures x + (y + z) == (x + y) + z
  {
  }

  /** Filtering a list with one more element in front. */
  lemma PresentCons(o: Option<string>, rest: seq<Option<string>>)
    ensures Present([o] + rest) == (if Truthy(o) then [o.value] else []) + Present(rest)
  {
    assert ([o] + rest)[1..] == rest;
  }

  /** A present string keeps its place in the join; an empty one leaves no trace. */
  lemma JoinedAfterPresent(sep: string, x: string, rest: seq<Option<string>>)
    ensures JoinedAfter(sep, Present([Some(x)] + rest)) == Glued(sep, x) + JoinedAfter(sep, Present(rest))
  {
    PresentCons(Some(x), rest);
    var ps := Present(rest);
    if x == "" {
      assert Present([Some(x)] + rest) == ps;
    } else {
      assert Present([Some(x)] + rest) == [x] + ps;
      JoinCons(sep, x, ps);
      calc {
        JoinedAfter(sep, [x] + ps);
        sep + Join(sep, [x] + ps);
        sep + (x + JoinedAfter(sep, ps));
        (sep + x) + JoinedAfter(sep, ps);
      }
    }
  }

  /**
   * Filtering and joining a non-empty head and three more strings keeps them
   * in order: the head, then each non-empty one after the separator.
   */
  lemma JoinPresentForm(sep: string, h: string, a: string, b: string, c: string)
    requires h != ""
    ensures Join(sep, Present([Some(h), Some(a), Some(b), Some(c)])) == h + Glued(sep, a) + Glued(sep, b) + Glued(sep, c)
  {
    assert [Some(h), Some(a), Some(b), Some(c)] == [Some(h)] + [Some(a), Some(b), Some(c)];
    JoinHead(sep, h, [Some(a), Some(b), Some(c)]);
    JoinedAfterThree(sep, a, b, c);
    ConcatAssoc(h, Glued(sep, a) + Glued(sep, b), Glued(sep, c));
    ConcatAssoc(h, Glued(sep, a), Glued(sep, b));
  }

  lemma JoinHead(sep: string, h: string, rest: seq<Option<string>>)
    requires h != ""
    ensures Join(sep, Present([Some(h)] + rest)) == h + JoinedAfter(sep, Present(rest))
  {
    PresentCons(Some(h), rest);
    JoinCons(sep, h, Present(rest));
  }

  lemma JoinedAfterThree(sep: string, a: string, b: string, c: string)
    ensures JoinedAfter(sep, Present([Some(a), Some(b), Some(c)])) == Glued(sep, a) + Glued(sep, b) + Glued(sep, c)
  {
    assert [Some(a), Some(b), Some(c)] == [Some(a)] + [Some(b), Some(c)];
    JoinedAfterPresent(sep, a, [Some(b), Some(c)]);
    JoinedAfterTwo(sep, b, c);
    ConcatAssoc(Glued(sep, a), Glued(sep, b), Glued(sep, c));
  }

  lemma JoinedAfterTwo(sep: string, b: string, c: string)
    ensures JoinedAfter(sep, Present([Some(b), Some(c)])) == Glued(sep, b) + Glued(sep, c)
  {
    assert [Some(b), Some(c)] == [Some(b)] + [Some(c)];
    JoinedAfterPresent(sep, b, [Some(c)]);
    assert [Some(c)] == [Some(c)] + [];
    JoinedAfterPresent(sep, c, []);
  }

  /** Two pairs with the same truth values and the same truthy strings filter alike. */
  lemma PresentSameTruth(a: Option<string>, b: Option<string>, a': Option<string>, b': Option<string>)
    requires Truthy(a) == Truthy(a') && (Truthy(a) ==> a == a')
    requires Truthy(b) == Truthy(b') && (Truthy(b) ==> b == b')
    ensures Present([a, b]) == Present([a', b'])
  {
    assert [a, b][1..] == [b];
    assert [a', b'][1..] == [b'];
  }
}
