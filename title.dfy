/**
 * `transform_title`: composes a marketplace title for a jewellery listing from
 * the product's raw title and its tags.
 *
 * The title is built from four mandatory sections in a fixed order (base,
 * styles, stone, metal), joined with ", ", followed by the optional
 * descriptors "2 Pcs", "High Polished" and "Gift", each appended only while
 * the title stays within 75 characters. Every display term is claimed once,
 * ignoring case, in a set of used terms.
 *
 * The pure functions below (Plan, Mandatory, Title) describe the result; the
 * method TransformTitle builds it step by step and is proved to agree.
 */
module Title {
  import opened Wrappers
  import opened Text

  const Budget: nat := 75

  const RingBase := "Women's Ring"
  const SetBase := "Women's Ring Set"

  /** Style vocabulary, in the order it is tried against each tag. */
  const StyleTerms: seq<string> := ["solitaire", "halo", "heart", "stackable", "eternity", "pavé", "midi"]

  /** Tags that name a stone shape. */
  const ShapeTerms: seq<string> := ["round", "heart", "pear", "square"]

  /** Colour words searched for in the lower-cased raw title. */
  const Colours: seq<string> := ["champagne", "blue", "clear", "pink", "purple", "green", "black", "white", "red"]

  /** The default stone, "Clear Cubic Zirconia", as its colour word and the rest. */
  const ZirconiaSuffix := " Cubic Zirconia"
  const DefaultStone := "Clear" + ZirconiaSuffix
  const CrystalStone := "Simulated Crystal"

  const PairCount := "2 Pcs"
  const HighPolished := "High Polished"
  const Gift := "Gift"

  function Max(a: int, b: int): (m: int) { if a >= b then a else b }

  // ===========================================================================
  // The SKU-prefix strip (its result is never read by the composer)

  /** Characters of the leading SKU token: capitals, digits and hyphens. */
  predicate IsSkuChar(c: char) { IsUpper(c) || ('0' <= c <= '9') || c == '-' }

  /** Hyphen, en dash or em dash. */
  predicate IsDash(c: char) { c == '-' || c == '\U{2013}' || c == '\U{2014}' }

  function SkipSkuChars(s: string, i: nat): (j: nat)
    requires i <= |s|
    ensures i <= j <= |s|
    ensures forall k | i <= k < j :: IsSkuChar(s[k])
    ensures j == |s| || !IsSkuChar(s[j])
    decreases |s| - i
  {
    if i < |s| && IsSkuChar(s[i]) then SkipSkuChars(s, i + 1) else i
  }

  function SkipSpaces(s: string, i: nat): (j: nat)
    requires i <= |s|
    ensures i <= j <= |s|
    ensures forall k | i <= k < j :: IsSpace(s[k])
    ensures j == |s| || !IsSpace(s[j])
    decreases |s| - i
  {
    if i < |s| && IsSpace(s[i]) then SkipSpaces(s, i + 1) else i
  }

  /**
   * `raw[..i]` is the whole leading run of SKU characters (at least one),
   * `raw[i..j]` all the whitespace after it, `raw[j..k]` one dash if one comes
   * next and nothing otherwise, and `raw[k..l]` all the whitespace after that.
   */
  predicate SkuPrefixParts(raw: string, i: int, j: int, k: int, l: int) {
    0 < i <= j <= k <= l <= |raw|
    && (forall x | 0 <= x < i :: IsSkuChar(raw[x])) && (i == |raw| || !IsSkuChar(raw[i]))
    && (forall x | i <= x < j :: IsSpace(raw[x])) && (j == |raw| || !IsSpace(raw[j]))
    && k == (if j < |raw| && IsDash(raw[j]) then j + 1 else j)
    && (forall x | k <= x < l :: IsSpace(raw[x])) && (l == |raw| || !IsSpace(raw[l]))
  }

  /**
   * Where the match of the SKU pattern at the start of `raw` ends: after the
   * SKU run, the whitespace, one optional dash and the whitespace again; 0
   * when `raw` does not start with a SKU character.
   */
  function SkuMatchEnd(raw: string): (l: nat)
    ensures l <= |raw|
    ensures raw == [] || !IsSkuChar(raw[0]) <==> l == 0
    ensures l < |raw| ==> l == 0 || !IsSpace(raw[l])
    ensures forall x | 0 <= x < l :: IsSkuChar(raw[x]) || IsSpace(raw[x]) || IsDash(raw[x])
  {
    var i := SkipSkuChars(raw, 0);
    if i == 0 then 0
    else
      var j := SkipSpaces(raw, i);
      var k := if j < |raw| && IsDash(raw[j]) then j + 1 else j;
      SkipSpaces(raw, k)
  }

  /** What the match covers is exactly the greedy reading of the SKU pattern. */
  lemma SkuMatchParts(raw: string)
    requires raw != [] && IsSkuChar(raw[0])
    ensures exists i, j, k :: SkuPrefixParts(raw, i, j, k, SkuMatchEnd(raw))
  {
    var i := SkipSkuChars(raw, 0);
    var j := SkipSpaces(raw, i);
    var k := if j < |raw| && IsDash(raw[j]) then j + 1 else j;
    assert SkuMatchEnd(raw) == SkipSpaces(raw, k);
    assert SkuPrefixParts(raw, i, j, k, SkuMatchEnd(raw));
  }

  /**
   * The SKU-prefix substitution at the start of `transform_title`: removes a
   * leading run of SKU characters, the whitespace after it, one optional dash
   * and the whitespace after that. A title that does not start with a SKU
   * character is returned unchanged.
   */
  function StripSkuPrefix(raw: string): (r: string)
    ensures |r| <= |raw| && r == raw[|raw| - |r|..]
    ensures raw == [] || !IsSkuChar(raw[0]) ==> r == raw
    ensures raw != [] && IsSkuChar(raw[0]) ==>
              |r| < |raw| && (r == [] || !IsSpace(r[0]))
              && forall k | 0 <= k < |raw| - |r| :: IsSkuChar(raw[k]) || IsSpace(raw[k]) || IsDash(raw[k])
  {
    raw[SkuMatchEnd(raw)..]
  }

  /** What is removed is exactly the greedy match of the SKU pattern, and what is left is the rest. */
  lemma StripSkuPrefixParts(raw: string)
    requires raw != [] && IsSkuChar(raw[0])
    ensures exists i, j, k, l :: SkuPrefixParts(raw, i, j, k, l) && StripSkuPrefix(raw) == raw[l..]
  {
    SkuMatchParts(raw);
    var i, j, k :| SkuPrefixParts(raw, i, j, k, SkuMatchEnd(raw));
    assert SkuPrefixParts(raw, i, j, k, SkuMatchEnd(raw)) && StripSkuPrefix(raw) == raw[SkuMatchEnd(raw)..];
  }

  // ===========================================================================
  // Claiming terms (`add_term`)

  /**
   * Claims `term` against the set of used lower-cased terms: the term comes
   * back the first time its lower-case form is claimed, None afterwards.
   */
  function Claim(used: set<string>, term: string): (r: (Option<string>, set<string>))
    ensures r.0.Some? <==> Lower(term) !in used
    ensures r.0.Some? ==> r.0.value == term
    ensures r.1 == used + {Lower(term)}
  {
    if Lower(term) !in used then (Some(term), used + {Lower(term)}) else (None, used)
  }

  /** The lower-case forms of the strings in `s`. */
  ghost function Lowered(s: seq<string>): (r: set<string>) {
    set x | x in s :: Lower(x)
  }

  /**
   * Claims `terms` one after another and keeps, in order, those that came back
   * truthy (present and non-empty), together with the final used set.
   */
  function ClaimAll(used: set<string>, terms: seq<string>): (r: (seq<string>, set<string>))
    ensures |r.0| <= |terms| && used <= r.1
    ensures forall x | x in r.0 :: x in terms
    decreases |terms|
  {
    if terms == [] then ([], used)
    else
      var (kept, u) := ClaimAll(used, terms[..|terms| - 1]);
      var (c, u') := Claim(u, terms[|terms| - 1]);
      (if Truthy(c) then kept + [c.value] else kept, u')
  }

  lemma ClaimAllSnoc(used: set<string>, terms: seq<string>, t: string)
    ensures ClaimAll(used, terms + [t]) ==
              var (kept, u) := ClaimAll(used, terms);
              var (c, u') := Claim(u, t);
              (if Truthy(c) then kept + [c.value] else kept, u')
  {
    assert (terms + [t])[..|terms|] == terms;
  }

  /** `a` is `b` with some elements left out, the rest in the same order. */
  predicate IsSubsequence(a: seq<string>, b: seq<string>)
    decreases |b|
  {
    a == [] ||
    (b != [] &&
      ((a[|a| - 1] == b[|b| - 1] && IsSubsequence(a[..|a| - 1], b[..|b| - 1]))
       || IsSubsequence(a, b[..|b| - 1])))
  }

  lemma SubsequenceSnoc(a: seq<string>, b: seq<string>, x: string)
    requires IsSubsequence(a, b)
    ensures IsSubsequence(a, b + [x]) && IsSubsequence(a + [x], b + [x])
  {
    assert (b + [x])[..|b|] == b;
    assert (a + [x])[..|a|] == a;
  }

  /** A subsequence stays one when an element is put in front, whether it is kept or not. */
  lemma {:induction false} SubsequenceCons(a: seq<string>, b: seq<string>, x: string)
    requires IsSubsequence(a, b)
    ensures IsSubsequence(a, [x] + b) && IsSubsequence([x] + a, [x] + b)
    decreases |b|
  {
    if b == [] {
      assert a == [];
      assert ([x] + a)[..0] == [];
    } else {
      var b' := b[..|b| - 1];
      assert ([x] + b)[..|b|] == [x] + b';
      if a == [] {
        SubsequenceCons(a, b', x);
      } else {
        var a' := a[..|a| - 1];
        assert ([x] + a)[..|a|] == [x] + a';
        if a[|a| - 1] == b[|b| - 1] && IsSubsequence(a', b') {
          SubsequenceCons(a', b', x);
        } else {
          SubsequenceCons(a, b', x);
        }
      }
    }
  }

  /** The used set grows by exactly the lower-case forms of the claimed terms. */
  lemma {:induction false} ClaimAllUsed(used: set<string>, terms: seq<string>)
    ensures ClaimAll(used, terms).1 == used + Lowered(terms)
    decreases |terms|
  {
    if terms != [] {
      var front := terms[..|terms| - 1];
      ClaimAllUsed(used, front);
      assert terms == front + [terms[|terms| - 1]];
      assert Lowered(terms) == Lowered(front) + {Lower(terms[|terms| - 1])};
    }
  }

  /** The terms kept are a subsequence of the terms claimed: claiming only leaves terms out. */
  lemma {:induction false} ClaimAllOrder(used: set<string>, terms: seq<string>)
    ensures IsSubsequence(ClaimAll(used, terms).0, terms)
    decreases |terms|
  {
    if terms != [] {
      var front := terms[..|terms| - 1];
      var t := terms[|terms| - 1];
      assert terms == front + [t];
      ClaimAllOrder(used, front);
      SubsequenceSnoc(ClaimAll(used, front).0, front, t);
    }
  }

  /**
   * The terms kept are none of them empty, none already used before, and no
   * two equal ignoring case: every term is emitted at most once.
   */
  lemma {:induction false} ClaimAllKept(used: set<string>, terms: seq<string>)
    ensures forall i | 0 <= i < |ClaimAll(used, terms).0| ::
              ClaimAll(used, terms).0[i] != "" && Lower(ClaimAll(used, terms).0[i]) !in used
    ensures forall i, j | 0 <= i < j < |ClaimAll(used, terms).0| ::
              Lower(ClaimAll(used, terms).0[i]) != Lower(ClaimAll(used, terms).0[j])
    decreases |terms|
  {
    if terms != [] {
      var front := terms[..|terms| - 1];
      var t := terms[|terms| - 1];
      assert terms == front + [t];
      ClaimAllKept(used, front);
      ClaimAllUsed(used, front);
      var (kept, u) := ClaimAll(used, front);
      var (c, u') := Claim(u, t);
      if Truthy(c) {
        var kept' := kept + [t];
        assert ClaimAll(used, terms).0 == kept';
        forall i | 0 <= i < |kept| ensures Lower(kept'[i]) != Lower(t) {
          assert kept[i] in front;
          assert Lower(kept[i]) in Lowered(front);
        }
      } else {
        assert ClaimAll(used, terms).0 == kept;
      }
    }
  }

  /**
   * Every non-empty term claimed is represented in the end: its lower-case
   * form was used before, or a kept term has the same lower-case form.
   */
  lemma {:induction false} ClaimAllComplete(used: set<string>, terms: seq<string>)
    ensures forall t | t in terms && t != "" :: Lower(t) in used || Lower(t) in Lowered(ClaimAll(used, terms).0)
    decreases |terms|
  {
    if terms != [] {
      var front := terms[..|terms| - 1];
      var t := terms[|terms| - 1];
      assert terms == front + [t];
      ClaimAllComplete(used, front);
      ClaimAllUsed(used, front);
      var (kept, u) := ClaimAll(used, front);
      var kept' := ClaimAll(used, terms).0;
      assert forall x | x in kept :: x in kept';
      assert Lowered(kept) <= Lowered(kept');
      if t != "" && Lower(t) !in used {
        if Lower(t) in u {
          var t' :| t' in front && Lower(t') == Lower(t);
          assert |t'| == |Lower(t')| == |t| > 0;
        } else {
          assert t in kept';
        }
      }
    }
  }

  /** Terms that are non-empty, unused and pairwise different ignoring case are all kept. */
  lemma {:induction false} ClaimAllFresh(used: set<string>, terms: seq<string>)
    requires forall i | 0 <= i < |terms| :: terms[i] != "" && Lower(terms[i]) !in used
    requires forall i, j | 0 <= i < j < |terms| :: Lower(terms[i]) != Lower(terms[j])
    ensures ClaimAll(used, terms).0 == terms
    decreases |terms|
  {
    if terms != [] {
      var front := terms[..|terms| - 1];
      var t := terms[|terms| - 1];
      ClaimAllFresh(used, front);
      ClaimAllUsed(used, front);
      assert Lower(t) !in Lowered(front);
      assert terms == front + [t];
    }
  }

  /** The used set of one transformation: created empty, claimed into, discarded at the end. */
  class UsedTerms {
    var terms: set<string>

    constructor ()
      ensures terms == {}
    {
      terms := {};
    }

    /** `add_term`: the term on its first claim (ignoring case), None on every later one. */
    method Add(term: string) returns (claimed: Option<string>)
      modifies this
      ensures claimed == (if Lower(term) in old(terms) then None else Some(term))
      ensures terms == old(terms) + {Lower(term)}
      ensures (claimed, terms) == Claim(old(terms), term)
    {
      var lowerTerm := Lower(term);
      if lowerTerm !in terms {
        terms := terms + {lowerTerm};
        return Some(term);
      }
      return None;
    }

    /** Marks an already lower-cased term as used without offering it. */
    method Insert(lowerTerm: string)
      modifies this
      ensures terms == old(terms) + {lowerTerm}
    {
      terms := terms + {lowerTerm};
    }
  }

  // ===========================================================================
  // Vocabulary facts

  /** A vocabulary entry: non-empty, in small letters, no surrounding whitespace. */
  predicate Word(s: string) {
    s != [] && NoCapitals(s) && Trimmed(s)
  }

  lemma StyleTermsAreWords()
    ensures forall s | s in StyleTerms :: Word(s) && |s| <= 9
  {
    assert Word("solitaire") && Word("halo") && Word("heart") && Word("stackable");
    assert Word("eternity") && Word("pavé") && Word("midi");
  }

  lemma ShapeTermsAreWords()
    ensures forall s | s in ShapeTerms :: Word(s) && |s| <= 6
  {
    assert Word("round") && Word("heart") && Word("pear") && Word("square");
  }

  lemma ColoursAreWords()
    ensures forall s | s in Colours :: Word(s)
  {
    assert Word("champagne") && Word("blue") && Word("clear") && Word("pink") && Word("purple");
    assert Word("green") && Word("black") && Word("white") && Word("red");
  }

  lemma CapitalizeTrimmed(s: string)
    requires s != [] && Trimmed(s)
    ensures Capitalize(s) != [] && Trimmed(Capitalize(s))
  {
    var r := Capitalize(s);
    if |s| > 1 {
      assert r[|r| - 1] == r[1..][|s| - 2] == LowerChar(s[|s| - 1]);
    }
  }

  // ===========================================================================
  // Priority 1: audience and product type

  /** A ring set: the tag "ring sets" is present or "set" occurs in the lower-cased raw title. */
  predicate IsSet(raw: string, tags: seq<string>) {
    "ring sets" in tags || Contains(Lower(raw), "set")
  }

  function BaseTerm(isSet: bool): (r: string) {
    if isSet then SetBase else RingBase
  }

  // ===========================================================================
  // Priority 2: styles

  /** The first style term, from index `j` of the vocabulary on, that occurs in `tag`. */
  function StyleFrom(tag: string, j: nat): (r: Option<string>)
    requires j <= |StyleTerms|
    ensures r.Some? ==> r.value in StyleTerms[j..] && Contains(tag, r.value)
    ensures r.Some? ==>
              exists k | j <= k < |StyleTerms| ::
                StyleTerms[k] == r.value && forall m | j <= m < k :: !Contains(tag, StyleTerms[m])
    ensures r.None? <==> forall k | j <= k < |StyleTerms| :: !Contains(tag, StyleTerms[k])
    decreases |StyleTerms| - j
  {
    if j == |StyleTerms| then None
    else if Contains(tag, StyleTerms[j]) then Some(StyleTerms[j])
    else StyleFrom(tag, j + 1)
  }

  /** The one style a tag contributes, if any: the first vocabulary entry the tag contains. */
  function StyleOf(tag: string): (r: Option<string>)
    ensures r.Some? ==> r.value in StyleTerms && Contains(tag, r.value)
    ensures r.None? <==> forall w | w in StyleTerms :: !Contains(tag, w)
  {
    assert StyleTerms[0..] == StyleTerms;
    StyleFrom(tag, 0)
  }

  /** The capitalized style of `tag`, when it has one. */
  function StyleName(tag: string): (r: Option<string>) {
    if StyleOf(tag).Some? then Some(Capitalize(StyleOf(tag).value)) else None
  }

  /** `f` sends `x` to `u`. */
  predicate Gives<T, U(==)>(f: T -> Option<U>, x: T, u: U) {
    f(x) == Some(u)
  }

  /**
   * Some element of `xs` that `f` sends to `x` comes before every element
   * that `f` sends to `y`.
   */
  predicate GivenBefore<T, U(==)>(f: T -> Option<U>, xs: seq<T>, x: U, y: U) {
    exists a | 0 <= a < |xs| :: Gives(f, xs[a], x) && forall b | 0 <= b < |xs| && Gives(f, xs[b], y) :: a < b
  }

  /** The capitalized style of each tag that has one, in tag order. */
  function Picks(tags: seq<string>): (r: seq<string>)
    ensures |r| <= |tags|
    ensures forall p | p in r :: exists t | t in tags :: Gives(StyleName, t, p)
    decreases |tags|
  {
    if tags == [] then []
    else
      var front := tags[..|tags| - 1];
      var last := tags[|tags| - 1];
      assert forall t | t in front :: t in tags;
      assert last in tags;
      var extra := if StyleOf(last).Some? then [Capitalize(StyleOf(last).value)] else [];
      assert forall p | p in extra :: Gives(StyleName, last, p);
      Picks(front) + extra
  }

  /** Every pick is a capitalized style word, non-empty and trimmed. */
  lemma {:induction false} PicksWords(tags: seq<string>)
    ensures forall p | p in Picks(tags) :: Lower(p) in StyleTerms && p == Capitalize(Lower(p)) && p != [] && Trimmed(p)
    decreases |tags|
  {
    if tags != [] {
      var front := tags[..|tags| - 1];
      var last := tags[|tags| - 1];
      PicksWords(front);
      if StyleOf(last).Some? {
        PickFacts(StyleOf(last).value);
      }
    }
  }

  /** Every tag's style is among the picks. */
  lemma {:induction false} PicksComplete(tags: seq<string>)
    ensures forall t | t in tags && StyleOf(t).Some? :: Capitalize(StyleOf(t).value) in Picks(tags)
    decreases |tags|
  {
    if tags != [] {
      var front := tags[..|tags| - 1];
      var last := tags[|tags| - 1];
      assert tags == front + [last];
      PicksComplete(front);
    }
  }

  /** The values `f` gives along `xs`, each kept where it first appears. */
  function Firsts<T, U(==)>(f: T -> Option<U>, xs: seq<T>): (r: seq<U>)
    ensures |r| <= |xs|
    decreases |xs|
  {
    if xs == [] then []
    else
      var front := Firsts(f, xs[..|xs| - 1]);
      var y := f(xs[|xs| - 1]);
      if y.Some? && y.value !in front then front + [y.value] else front
  }

  /** Each kept value is given by some element. */
  lemma {:induction false} FirstsSound<T, U>(f: T -> Option<U>, xs: seq<T>)
    ensures forall u | u in Firsts(f, xs) :: exists a | 0 <= a < |xs| :: Gives(f, xs[a], u)
    decreases |xs|
  {
    if xs != [] {
      var n := |xs| - 1;
      var front := xs[..n];
      FirstsSound(f, front);
      forall u | u in Firsts(f, xs) ensures exists a | 0 <= a < |xs| :: Gives(f, xs[a], u) {
        if u in Firsts(f, front) {
          var a :| 0 <= a < n && Gives(f, front[a], u);
          assert xs[a] == front[a];
        } else {
          assert Gives(f, xs[n], u);
        }
      }
    }
  }

  /** Every value an element gives is kept. */
  lemma {:induction false} FirstsComplete<T, U>(f: T -> Option<U>, xs: seq<T>)
    ensures forall a, u | 0 <= a < |xs| && Gives(f, xs[a], u) :: u in Firsts(f, xs)
    decreases |xs|
  {
    if xs != [] {
      var n := |xs| - 1;
      var front := xs[..n];
      FirstsComplete(f, front);
      forall a, u | 0 <= a < |xs| && Gives(f, xs[a], u) ensures u in Firsts(f, xs) {
        if a < n {
          assert Gives(f, front[a], u);
        }
      }
    }
  }

  /** No value is kept twice. */
  lemma {:induction false} FirstsDistinct<T, U>(f: T -> Option<U>, xs: seq<T>)
    ensures forall i, j | 0 <= i < j < |Firsts(f, xs)| :: Firsts(f, xs)[i] != Firsts(f, xs)[j]
    decreases |xs|
  {
    if xs != [] {
      var rf := Firsts(f, xs[..|xs| - 1]);
      var r := Firsts(f, xs);
      FirstsDistinct(f, xs[..|xs| - 1]);
      var y := f(xs[|xs| - 1]);
      assert r == rf || (y.Some? && y.value !in rf && r == rf + [y.value]);
      forall i, j | 0 <= i < j < |r| ensures r[i] != r[j] {
        if j == |rf| {
          assert r[i] == rf[i] && r[j] !in rf;
        } else {
          assert r[i] == rf[i] && r[j] == rf[j];
        }
      }
    }
  }

  /**
   * Kept values are in the order in which they are first given: some element
   * giving the earlier value comes before every element giving the later one.
   */
  lemma {:induction false} FirstsOrder<T, U>(f: T -> Option<U>, xs: seq<T>)
    ensures forall i, j | 0 <= i < j < |Firsts(f, xs)| :: GivenBefore(f, xs, Firsts(f, xs)[i], Firsts(f, xs)[j])
    decreases |xs|
  {
    if xs != [] {
      var n := |xs| - 1;
      var front := xs[..n];
      var rf := Firsts(f, front);
      var r := Firsts(f, xs);
      FirstsOrder(f, front);
      FirstsSound(f, front);
      FirstsComplete(f, front);
      assert r[..|rf|] == rf;
      forall i, j | 0 <= i < j < |r| ensures GivenBefore(f, xs, r[i], r[j]) {
        assert r[i] == rf[i] && r[i] in rf;
        if j < |rf| {
          assert r[j] == rf[j];
          assert GivenBefore(f, front, rf[i], rf[j]);
          var a :| 0 <= a < |front| && Gives(f, front[a], rf[i])
                   && forall b | 0 <= b < |front| && Gives(f, front[b], rf[j]) :: a < b;
          FirstBefore(f, xs, front, a, rf[i], rf[j]);
        } else {
          var a :| 0 <= a < n && Gives(f, front[a], r[i]);
          assert Gives(f, xs[a], r[i]);
          forall b | 0 <= b < |xs| && Gives(f, xs[b], r[j]) ensures a < b {
            assert b == n;
          }
        }
      }
    }
  }

  /** An element of the front that comes before every giver of `y` there still does with one more element, when that one does not give `y` earlier. */
  lemma FirstBefore<T, U>(f: T -> Option<U>, xs: seq<T>, front: seq<T>, a: nat, x: U, y: U)
    requires |front| + 1 == |xs| && front == xs[..|front|]
    requires a < |front| && Gives(f, front[a], x)
    requires forall b | 0 <= b < |front| && Gives(f, front[b], y) :: a < b
    ensures Gives(f, xs[a], x) && forall b | 0 <= b < |xs| && Gives(f, xs[b], y) :: a < b
  {
    assert xs[a] == front[a];
    forall b | 0 <= b < |xs| && Gives(f, xs[b], y) ensures a < b {
      if b < |front| {
        assert xs[b] == front[b];
      }
    }
  }

  /** The distinct styles are exactly the picks, as a set. */
  lemma {:induction false} StylesMembers(tags: seq<string>)
    ensures forall x :: x in Firsts(StyleName, tags) <==> x in Picks(tags)
    decreases |tags|
  {
    if tags != [] {
      StylesMembers(tags[..|tags| - 1]);
    }
  }

  /**
   * Claiming the picks against a used set that holds no style word keeps
   * exactly the distinct styles, each where a tag first gives it.
   */
  lemma {:induction false} ClaimPicks(used: set<string>, tags: seq<string>)
    requires forall x | x in used :: x !in StyleTerms
    ensures ClaimAll(used, Picks(tags)).0 == Firsts(StyleName, tags)
    decreases |tags|
  {
    if tags != [] {
      var front := tags[..|tags| - 1];
      var last := tags[|tags| - 1];
      ClaimPicks(used, front);
      LastPick(tags);
      if StyleName(last).Some? {
        ClaimPickStep(used, front, StyleName(last).value);
      }
    }
  }

  /** The last tag adds its capitalized style to the picks, when it has one; that pick is a capitalized style word. */
  lemma LastPick(tags: seq<string>)
    requires tags != []
    ensures var front := tags[..|tags| - 1];
            var last := tags[|tags| - 1];
            (StyleName(last).None? ==> Picks(tags) == Picks(front))
            && (StyleName(last).Some? ==>
                  var p := StyleName(last).value;
                  Picks(tags) == Picks(front) + [p] && Lower(p) in StyleTerms && p == Capitalize(Lower(p)) && p != [])
  {
    var last := tags[|tags| - 1];
    if StyleOf(last).Some? {
      PickFacts(StyleOf(last).value);
    }
  }

  /** One more pick is kept exactly when it is a style not kept before. */
  lemma ClaimPickStep(used: set<string>, front: seq<string>, p: string)
    requires forall x | x in used :: x !in StyleTerms
    requires ClaimAll(used, Picks(front)).0 == Firsts(StyleName, front)
    requires Lower(p) in StyleTerms && p == Capitalize(Lower(p)) && p != []
    ensures var kept := Firsts(StyleName, front);
            ClaimAll(used, Picks(front) + [p]).0 == if p in kept then kept else kept + [p]
  {
    ClaimAllSnoc(used, Picks(front), p);
    ClaimAllUsed(used, Picks(front));
    StylesMembers(front);
    PickClaimed(used, front, p);
  }

  /** A pick's lower-case form has been claimed by the earlier picks exactly when it is one of them. */
  lemma PickClaimed(used: set<string>, front: seq<string>, p: string)
    requires forall x | x in used :: x !in StyleTerms
    requires Lower(p) in StyleTerms && p == Capitalize(Lower(p))
    ensures Lower(p) in used + Lowered(Picks(front)) <==> p in Picks(front)
  {
    PicksWords(front);
    if Lower(p) in Lowered(Picks(front)) {
      var q :| q in Picks(front) && Lower(q) == Lower(p);
      assert q == Capitalize(Lower(q)) == p;
    }
  }

  /** A style word, capitalized, is a non-empty trimmed pick whose lower-case form is the word. */
  lemma PickFacts(s: string)
    requires s in StyleTerms
    ensures var p := Capitalize(s);
            Lower(p) == s && p == Capitalize(Lower(p)) && p != [] && Trimmed(p)
  {
    StyleTermsAreWords();
    LowerCapitalize(s);
    CapitalizeTrimmed(s);
  }

  // ===========================================================================
  // Priority 3: stone

  /** The tag is a shape whose lower-cased capitalized form is still unclaimed. */
  predicate FreeShape(tag: string, used: set<string>) {
    tag in ShapeTerms && Lower(Capitalize(tag)) !in used
  }

  /** The first tag, from index `i` on, that satisfies `p`: `next((t for t in tags if p(t)), None)`. */
  function FirstWhere(tags: seq<string>, p: string -> bool, i: nat): (r: Option<string>)
    requires i <= |tags|
    ensures r.Some? ==> r.value in tags[i..] && p(r.value)
    decreases |tags| - i
  {
    if i == |tags| then None
    else if p(tags[i]) then Some(tags[i])
    else FirstWhere(tags, p, i + 1)
  }

  /** The tag found satisfies `p` and no earlier one does; none is found exactly when no tag satisfies `p`. */
  lemma {:induction false} FirstWhereFirst(tags: seq<string>, p: string -> bool, i: nat)
    requires i <= |tags|
    ensures var r := FirstWhere(tags, p, i);
            (r.Some? ==> p(r.value))
            && (r.Some? ==> exists k | i <= k < |tags| :: tags[k] == r.value && forall m | i <= m < k :: !p(tags[m]))
            && (r.None? <==> forall k | i <= k < |tags| :: !p(tags[k]))
    decreases |tags| - i
  {
    var r := FirstWhere(tags, p, i);
    if i < |tags| && p(tags[i]) {
      assert r == Some(tags[i]);
    } else if i < |tags| {
      FirstWhereFirst(tags, p, i + 1);
      if r.Some? {
        var k :| i + 1 <= k < |tags| && tags[k] == r.value && forall m | i + 1 <= m < k :: !p(tags[m]);
        assert forall m | i <= m < k :: !p(tags[m]);
      }
    }
  }

  /** The first tag, from index `i` on, that is an unclaimed shape. */
  function ShapeFrom(tags: seq<string>, used: set<string>, i: nat): (r: Option<string>)
    requires i <= |tags|
    ensures r.Some? ==> r.value in tags && r.value in ShapeTerms && Lower(Capitalize(r.value)) !in used
  {
    FirstWhere(tags, tag => FreeShape(tag, used), i)
  }

  /** The shape found is the first unclaimed shape tag from `i` on; none is found exactly when there is none. */
  lemma ShapeFromFirst(tags: seq<string>, used: set<string>, i: nat)
    requires i <= |tags|
    ensures var r := ShapeFrom(tags, used, i);
            (r.Some? ==> FreeShape(r.value, used))
            && (r.Some? ==>
                  exists k | i <= k < |tags| :: tags[k] == r.value && forall m | i <= m < k :: !FreeShape(tags[m], used))
            && (r.None? <==> forall k | i <= k < |tags| :: !FreeShape(tags[k], used))
  {
    FirstWhereFirst(tags, tag => FreeShape(tag, used), i);
  }

  /** The first of `words`, in list order, that starts at index `i` of `s`. */
  function ColourAt(s: string, words: seq<string>, i: int): (r: Option<string>)
    ensures r.Some? ==> r.value in words && Occurs(s, r.value, i)
  {
    FirstWhere(words, w => Occurs(s, w, i), 0)
  }

  /** The word of `words` found at the smallest index of `s` from `i` on where one starts. */
  function ColourFrom(s: string, words: seq<string>, i: nat): (r: Option<string>)
    requires i <= |s|
    ensures r.Some? ==> r.value in words && Contains(s, r.value)
    decreases |s| - i
  {
    if ColourAt(s, words, i).Some? then ColourAt(s, words, i)
    else if i == |s| then None
    else ColourFrom(s, words, i + 1)
  }

  /**
   * The word found is the one found at the smallest index from `i` on where
   * any of `words` starts; none is found exactly when none starts anywhere.
   */
  lemma {:induction false} ColourFromFirst(s: string, words: seq<string>, i: nat)
    requires i <= |s|
    ensures var r := ColourFrom(s, words, i);
            (r.Some? ==>
               exists k | i <= k <= |s| :: ColourAt(s, words, k) == r && forall m | i <= m < k :: ColourAt(s, words, m).None?)
            && (r.None? <==> forall k | i <= k <= |s| :: ColourAt(s, words, k).None?)
    decreases |s| - i
  {
    var r := ColourFrom(s, words, i);
    if ColourAt(s, words, i).None? && i < |s| {
      ColourFromFirst(s, words, i + 1);
      if r.Some? {
        var k :| i + 1 <= k <= |s| && ColourAt(s, words, k) == r && forall m | i + 1 <= m < k :: ColourAt(s, words, m).None?;
        assert forall m | i <= m < k :: ColourAt(s, words, m).None?;
      }
    }
  }

  /** The leftmost colour word in `s`, as the search in the source finds it. */
  function FindColour(s: string): (r: Option<string>)
    ensures r.Some? ==> r.value in Colours && Contains(s, r.value)
  {
    ColourFrom(s, Colours, 0)
  }

  /** A colour is found exactly when some colour word occurs, and it is one of the colour words. */
  lemma FindColourNone(s: string)
    ensures FindColour(s).None? <==> forall w | w in Colours :: !Contains(s, w)
    ensures FindColour(s).Some? ==> FindColour(s).value in Colours
  {
    ColourFromFirst(s, Colours, 0);
    if FindColour(s).None? {
      forall w | w in Colours ensures !Contains(s, w) {
        forall i | 0 <= i <= |s| - |w| ensures !Occurs(s, w, i) {
          ColourAtFacts(s, i);
        }
      }
    } else {
      var k :| 0 <= k <= |s| && ColourAt(s, Colours, k) == FindColour(s);
      ColourAtFacts(s, k);
    }
  }

  /** A colour word is found at `i` exactly when one occurs there, and the one found occurs there. */
  lemma ColourAtFacts(s: string, i: int)
    ensures ColourAt(s, Colours, i).None? <==> forall w | w in Colours :: !Occurs(s, w, i)
    ensures ColourAt(s, Colours, i).Some? ==> ColourAt(s, Colours, i).value in Colours && Occurs(s, ColourAt(s, Colours, i).value, i)
  {
    var p := w => Occurs(s, w, i);
    FirstWhereFirst(Colours, p, 0);
    assert ColourAt(s, Colours, i) == FirstWhere(Colours, p, 0);
    if ColourAt(s, Colours, i).Some? {
      var k :| 0 <= k < |Colours| && Colours[k] == ColourAt(s, Colours, i).value && forall m | 0 <= m < k :: !p(Colours[m]);
    }
  }

  /**
   * The stone section: the default stone or "Simulated Crystal", with "Clear"
   * replaced by the capitalized colour, behind the capitalized shape if any.
   */
  function StoneSection(raw: string, shape: Option<string>): (r: string)
    ensures shape.Some? ==> IsPrefix(Capitalize(shape.value) + " ", r)
  {
    var lower := Lower(raw);
    var stone := if Contains(lower, "simulated crystal") then CrystalStone else DefaultStone;
    var colour := FindColour(lower);
    var coloured := if colour.Some? then ReplaceAll(stone, "Clear", Capitalize(colour.value)) else stone;
    if shape.Some? then Capitalize(shape.value) + " " + coloured else coloured
  }

  lemma NoClearInCrystal()
    ensures !Contains(CrystalStone, "Clear")
  {
    AbsentByPair(CrystalStone, "Clear");
  }

  lemma NoClearAfterDefault()
    ensures !Contains(ZirconiaSuffix, "Clear")
  {
    AbsentByPair(ZirconiaSuffix, "Clear");
  }

  /** Replacing "Clear" by a colour only changes the default stone, and only its first word. */
  lemma ReplaceClear(c: string)
    ensures ReplaceAll(DefaultStone, "Clear", c) == c + ZirconiaSuffix
    ensures ReplaceAll(CrystalStone, "Clear", c) == CrystalStone
  {
    ReplaceClearInCrystal(c);
    ReplaceClearInDefault(c);
  }

  lemma ReplaceClearInCrystal(c: string)
    ensures ReplaceAll(CrystalStone, "Clear", c) == CrystalStone
  {
    NoClearInCrystal();
    ReplaceAllAbsent(CrystalStone, "Clear", c);
  }

  lemma ReplaceClearInDefault(c: string)
    ensures ReplaceAll(DefaultStone, "Clear", c) == c + ZirconiaSuffix
  {
    var rest := ZirconiaSuffix;
    ReplaceAllLeading("Clear", rest, c);
    NoClearAfterDefault();
    ReplaceAllAbsent(rest, "Clear", c);
  }

  /**
   * The colour only ever replaces the default "Clear": the stone is
   * `[Shape ]<Colour> Cubic Zirconia` or `[Shape ]Simulated Crystal`.
   */
  lemma StoneForm(raw: string, shape: Option<string>)
    ensures StoneSection(raw, shape) ==
              (if shape.Some? then Capitalize(shape.value) + " " else "")
              + (if Contains(Lower(raw), "simulated crystal") then CrystalStone
                 else Capitalize(if FindColour(Lower(raw)).Some? then FindColour(Lower(raw)).value else "clear")
                      + ZirconiaSuffix)
  {
    var lower := Lower(raw);
    var crystal := Contains(lower, "simulated crystal");
    var stone := if crystal then CrystalStone else DefaultStone;
    var colour := FindColour(lower);
    var c := Capitalize(if colour.Some? then colour.value else "clear");
    var coloured := if colour.Some? then ReplaceAll(stone, "Clear", c) else stone;
    assert coloured == if crystal then CrystalStone else c + ZirconiaSuffix by {
      if colour.Some? {
        ReplaceClear(c);
      } else {
        DefaultStoneWords();
      }
    }
  }

  /** The default stone is "Clear" followed by the rest of its name, and "Clear" is "clear" capitalized. */
  lemma DefaultStoneWords()
    ensures DefaultStone == Capitalize("clear") + ZirconiaSuffix
  {
    CapitalizeClear();
  }

  lemma CapitalizeClear()
    ensures Capitalize("clear") == "Clear"
  {
    assert Lower("lear") == "lear";
  }

  // ===========================================================================
  // Priority 4: metal

  /** At most one plating label, by priority IP Gold > IP Rose Gold > IP Black > rhodium. */
  function Plating(raw: string, tags: seq<string>): (p: string)
    ensures p in {"Gold-Plated", "Rose Gold-Plated", "Black-Plated", "Rhodium-Plated", ""}
    ensures p == "Gold-Plated" <==> Contains(raw, "IP Gold")
    ensures p == "Rose Gold-Plated" <==> !Contains(raw, "IP Gold") && Contains(raw, "IP Rose Gold")
    ensures p == "Black-Plated" <==>
              !Contains(raw, "IP Gold") && !Contains(raw, "IP Rose Gold") && Contains(raw, "IP Black")
    ensures p == "Rhodium-Plated" <==>
              !Contains(raw, "IP Gold") && !Contains(raw, "IP Rose Gold") && !Contains(raw, "IP Black")
              && (Contains(Lower(raw), "rhodium") || "rhodium" in tags)
  {
    if Contains(raw, "IP Gold") then "Gold-Plated"
    else if Contains(raw, "IP Rose Gold") then "Rose Gold-Plated"
    else if Contains(raw, "IP Black") then "Black-Plated"
    else if Contains(Lower(raw), "rhodium") || "rhodium" in tags then "Rhodium-Plated"
    else ""
  }

  /** At most one material, by priority stainless steel > brass. */
  function Material(raw: string, tags: seq<string>): (m: string)
    ensures m in {"Stainless Steel", "Brass", ""}
    ensures m == "Stainless Steel" <==> Contains(Lower(raw), "stainless")
    ensures m == "Brass" <==> !Contains(Lower(raw), "stainless") && (Contains(Lower(raw), "brass") || "brass" in tags)
  {
    if Contains(Lower(raw), "stainless") then "Stainless Steel"
    else if Contains(Lower(raw), "brass") || "brass" in tags then "Brass"
    else ""
  }

  // ===========================================================================
  // Priority 5: descriptors, and the whole title

  /** The descriptors offered for claiming, in order. */
  function Candidates(raw: string, isSet: bool): (r: seq<string>)
    ensures r != [] && r[|r| - 1] == Gift
    ensures PairCount in r <==> isSet
    ensures HighPolished in r <==> Contains(Lower(raw), "high polished")
  {
    (if isSet then [PairCount] else [])
    + (if Contains(Lower(raw), "high polished") then [HighPolished] else [])
    + [Gift]
  }

  /** The descriptors are offered in the fixed order pair count, polish, gift, none of them twice. */
  lemma CandidatesOrder(raw: string, isSet: bool)
    ensures IsSubsequence(Candidates(raw, isSet), [PairCount, HighPolished, Gift])
    ensures var r := Candidates(raw, isSet);
            forall i, j | 0 <= i < j < |r| :: r[i] != r[j]
  {
    OfferedOrder(if isSet then [PairCount] else [],
                 if Contains(Lower(raw), "high polished") then [HighPolished] else []);
  }

  /** An optional pair count, then an optional polish, then the gift, keep the fixed order and repeat nothing. */
  lemma OfferedOrder(pair: seq<string>, polish: seq<string>)
    requires pair == [] || pair == [PairCount]
    requires polish == [] || polish == [HighPolished]
    ensures IsSubsequence(pair + polish + [Gift], [PairCount, HighPolished, Gift])
    ensures var r := pair + polish + [Gift];
            forall i, j | 0 <= i < j < |r| :: r[i] != r[j]
  {
    var front := pair + polish;
    assert IsSubsequence(pair, [PairCount]) by {
      if pair != [] {
        assert pair[..0] == [PairCount][..0];
      }
    }
    SubsequenceSnoc(pair, [PairCount], HighPolished);
    assert IsSubsequence(front, [PairCount, HighPolished]) by {
      assert [PairCount] + [HighPolished] == [PairCount, HighPolished];
    }
    SubsequenceSnoc(front, [PairCount, HighPolished], Gift);
    assert [PairCount, HighPolished] + [Gift] == [PairCount, HighPolished, Gift];
    OfferedDistinct(pair, polish);
  }

  /** Such a list repeats nothing. */
  lemma OfferedDistinct(pair: seq<string>, polish: seq<string>)
    requires pair == [] || pair == [PairCount]
    requires polish == [] || polish == [HighPolished]
    ensures var r := pair + polish + [Gift];
            forall i, j | 0 <= i < j < |r| :: r[i] != r[j]
  {
    var r := pair + polish + [Gift];
    assert PairCount[0] != HighPolished[0] && PairCount[0] != Gift[0] && HighPolished[0] != Gift[0];
    forall i, j | 0 <= i < j < |r| ensures r[i] != r[j] {
      if i < |pair| {
        assert r[i] == PairCount;
      } else {
        assert r[i] == HighPolished && r[j] == Gift;
      }
    }
  }

  // The stages of one transformation, each claiming against the used set the
  // previous stage left behind.

  function BaseClaim(raw: string, tags: seq<string>): (r: (Option<string>, set<string>)) {
    Claim({}, BaseTerm(IsSet(raw, tags)))
  }

  function StyleClaim(raw: string, tags: seq<string>): (r: (seq<string>, set<string>)) {
    ClaimAll(BaseClaim(raw, tags).1, Picks(tags))
  }

  function ShapeOf(raw: string, tags: seq<string>): (r: Option<string>) {
    ShapeFrom(tags, StyleClaim(raw, tags).1, 0)
  }

  function UsedAfterShape(raw: string, tags: seq<string>): (r: set<string>) {
    var shape := ShapeOf(raw, tags);
    if shape.Some? then StyleClaim(raw, tags).1 + {Lower(Capitalize(shape.value))} else StyleClaim(raw, tags).1
  }

  function MaterialClaim(raw: string, tags: seq<string>): (r: (Option<string>, set<string>)) {
    Claim(UsedAfterShape(raw, tags), Material(raw, tags))
  }

  function PlatingClaim(raw: string, tags: seq<string>): (r: (Option<string>, set<string>)) {
    Claim(MaterialClaim(raw, tags).1, Plating(raw, tags))
  }

  function DescriptorClaim(raw: string, tags: seq<string>): (r: (seq<string>, set<string>)) {
    ClaimAll(PlatingClaim(raw, tags).1, Candidates(raw, IsSet(raw, tags)))
  }

  /** The sections and descriptors of one transformation, before joining. */
  datatype Draft = Draft(
    base: Option<string>,
    styles: seq<string>,
    shape: Option<string>,
    stone: string,
    metal: string,
    descriptors: seq<string>,
    used: set<string>)

  /** The sections, claimed in priority order against one used set. */
  function Plan(raw: string, tags: seq<string>): (d: Draft)
    ensures d.base == Some(BaseTerm(IsSet(raw, tags)))
    ensures d.shape == ShapeOf(raw, tags) && d.stone == StoneSection(raw, d.shape)
  {
    Draft(
      BaseClaim(raw, tags).0,
      StyleClaim(raw, tags).0,
      ShapeOf(raw, tags),
      StoneSection(raw, ShapeOf(raw, tags)),
      Join(" ", Present([MaterialClaim(raw, tags).0, PlatingClaim(raw, tags).0])),
      DescriptorClaim(raw, tags).0,
      DescriptorClaim(raw, tags).1)
  }

  /** The mandatory part: base, styles, stone and metal joined with ", ", empty sections left out. */
  function Mandatory(d: Draft): (r: string) {
    Join(", ", Present([d.base, Some(Join(" ", d.styles)), Some(d.stone), Some(d.metal)]))
  }

  /**
   * Tries each descriptor in turn and appends it (after ", ") only if the
   * result stays within `budget`; a descriptor that does not fit is skipped
   * and later ones are still tried.
   */
  function AppendWithin(s: string, ds: seq<string>, budget: nat): (r: string)
    ensures IsPrefix(s, r)
    ensures |r| <= Max(|s|, budget)
    decreases |ds|
  {
    if ds == [] then s
    else
      var next := if |s + ", " + ds[0]| <= budget then s + ", " + ds[0] else s;
      AppendWithin(next, ds[1..], budget)
  }

  lemma {:induction false} AppendWithinTrimmed(s: string, ds: seq<string>, budget: nat)
    requires s != [] && Trimmed(s)
    requires forall d | d in ds :: d != [] && Trimmed(d)
    ensures Trimmed(AppendWithin(s, ds, budget))
    decreases |ds|
  {
    if ds != [] {
      assert ds[0] in ds;
      assert forall d | d in ds[1..] :: d in ds;
      var next := if |s + ", " + ds[0]| <= budget then s + ", " + ds[0] else s;
      assert next[0] == s[0];
      AppendWithinTrimmed(next, ds[1..], budget);
    }
  }

  /** A head already at the budget takes no descriptor: each would add at least ", ". */
  lemma {:induction false} AppendWithinOver(s: string, ds: seq<string>, budget: nat)
    requires |s| >= budget
    ensures AppendWithin(s, ds, budget) == s
    decreases |ds|
  {
    if ds != [] {
      AppendWithinOver(s, ds[1..], budget);
    }
  }

  /** The descriptors `ds` as they appear once appended: each after ", ". */
  function Listed(ds: seq<string>): (r: string)
    ensures ds != [] ==> IsPrefix(", " + ds[0], r)
    decreases |ds|
  {
    if ds == [] then "" else ", " + ds[0] + Listed(ds[1..])
  }

  /**
   * What is appended is some of the descriptors, in their order, each after
   * ", ": the head followed by the listing of a subsequence of `ds`.
   */
  lemma {:induction false} AppendWithinForm(s: string, ds: seq<string>, budget: nat)
    ensures exists sub :: IsSubsequence(sub, ds) && AppendWithin(s, ds, budget) == s + Listed(sub)
    decreases |ds|
  {
    if ds == [] {
      assert AppendWithin(s, ds, budget) == s + Listed([]);
    } else {
      var r := AppendWithin(s, ds, budget);
      var fits := |s + ", " + ds[0]| <= budget;
      var next := if fits then s + ", " + ds[0] else s;
      assert r == AppendWithin(next, ds[1..], budget);
      AppendWithinForm(next, ds[1..], budget);
      var sub :| IsSubsequence(sub, ds[1..]) && r == next + Listed(sub);
      assert ds == [ds[0]] + ds[1..];
      ListedStep(s, ds[0], ds[1..], sub, fits, r);
    }
  }

  /** One step of the form: the first descriptor is either listed in front or left out. */
  lemma ListedStep(s: string, x: string, rest: seq<string>, sub: seq<string>, fits: bool, r: string)
    requires IsSubsequence(sub, rest)
    requires r == (if fits then s + ", " + x else s) + Listed(sub)
    ensures exists sub' :: IsSubsequence(sub', [x] + rest) && r == s + Listed(sub')
  {
    SubsequenceCons(sub, rest, x);
    if fits {
      var sub' := [x] + sub;
      assert sub'[1..] == sub;
      assert Listed(sub') == ", " + x + Listed(sub);
      assert r == s + Listed(sub');
    } else {
      assert r == s + Listed(sub);
    }
  }

  /**
   * No descriptor is left out that would still fit: any descriptor whose
   * ", " plus text would keep the final result within the budget is in it.
   */
  lemma {:induction false} AppendWithinMaximal(s: string, ds: seq<string>, budget: nat)
    ensures var r := AppendWithin(s, ds, budget);
            forall i | 0 <= i < |ds| :: |r| + 2 + |ds[i]| <= budget ==> Contains(r, ", " + ds[i])
    decreases |ds|
  {
    if ds != [] {
      var r := AppendWithin(s, ds, budget);
      var next := if |s + ", " + ds[0]| <= budget then s + ", " + ds[0] else s;
      assert r == AppendWithin(next, ds[1..], budget);
      AppendWithinMaximal(next, ds[1..], budget);
      forall i | 0 <= i < |ds| && |r| + 2 + |ds[i]| <= budget ensures Contains(r, ", " + ds[i]) {
        if i == 0 {
          var p := ", " + ds[0];
          assert next == s + p;
          assert r[|s|..|s| + |p|] == next[|s|..] == p;
          assert Occurs(r, p, |s|);
        } else {
          assert ds[i] == ds[1..][i - 1];
        }
      }
    }
  }

  /**
   * The loop read left to right: one more descriptor is appended to what the
   * earlier ones left exactly when ", " and the descriptor still fit.
   */
  lemma {:induction false} AppendWithinSnoc(s: string, ds: seq<string>, d: string, budget: nat)
    ensures var t := AppendWithin(s, ds, budget);
            AppendWithin(s, ds + [d], budget) == if |t| + 2 + |d| <= budget then t + ", " + d else t
    decreases |ds|
  {
    if ds == [] {
      assert [d][1..] == [];
    } else {
      var next := if |s + ", " + ds[0]| <= budget then s + ", " + ds[0] else s;
      assert (ds + [d])[0] == ds[0] && (ds + [d])[1..] == ds[1..] + [d];
      AppendWithinSnoc(next, ds[1..], d, budget);
    }
  }

  /**
   * First fit, in order: starting from the head, each descriptor in turn is
   * appended to the result so far exactly when it still fits, and the
   * result after the last one is the whole result.
   */
  lemma AppendWithinGreedy(s: string, ds: seq<string>, budget: nat)
    ensures AppendWithin(s, ds[..0], budget) == s
    ensures AppendWithin(s, ds[..|ds|], budget) == AppendWithin(s, ds, budget)
    ensures forall i | 0 <= i < |ds| ::
              var t := AppendWithin(s, ds[..i], budget);
              AppendWithin(s, ds[..i + 1], budget) == if |t| + 2 + |ds[i]| <= budget then t + ", " + ds[i] else t
  {
    assert ds[..0] == [] && ds[..|ds|] == ds;
    forall i | 0 <= i < |ds|
      ensures var t := AppendWithin(s, ds[..i], budget);
              AppendWithin(s, ds[..i + 1], budget) == if |t| + 2 + |ds[i]| <= budget then t + ", " + ds[i] else t
    {
      assert ds[..i + 1] == ds[..i] + [ds[i]];
      AppendWithinSnoc(s, ds[..i], ds[i], budget);
    }
  }

  /** The title the source returns. */
  function Title(raw: string, tags: seq<string>): (r: string)
    ensures Trimmed(r)
  {
    var d := Plan(raw, tags);
    Strip(AppendWithin(Mandatory(d), d.descriptors, Budget))
  }

  // ===========================================================================
  // Properties of the plan

  /** What the style stage leaves in the used set: the base and the style words. */
  lemma StyleClaimUsed(raw: string, tags: seq<string>)
    ensures BaseClaim(raw, tags) == (Some(BaseTerm(IsSet(raw, tags))), {Lower(BaseTerm(IsSet(raw, tags)))})
    ensures StyleClaim(raw, tags).1 == {Lower(BaseTerm(IsSet(raw, tags)))} + Lowered(Picks(tags))
    ensures forall x | x in Lowered(Picks(tags)) :: x in StyleTerms
    ensures Lower(BaseTerm(IsSet(raw, tags))) !in StyleTerms && Lower(BaseTerm(IsSet(raw, tags))) !in ShapeTerms
  {
    var lowerBase := Lower(BaseTerm(IsSet(raw, tags)));
    assert {} + {lowerBase} == {lowerBase};
    ClaimAllUsed(BaseClaim(raw, tags).1, Picks(tags));
    PicksWords(tags);
    PicksComplete(tags);
    BaseOutsideVocabulary(IsSet(raw, tags));
  }

  /** Neither base, lower-cased, is a style or a shape word. */
  lemma BaseOutsideVocabulary(isSet: bool)
    ensures Lower(BaseTerm(isSet)) !in StyleTerms && Lower(BaseTerm(isSet)) !in ShapeTerms
  {
    LowerBases();
  }

  /**
   * Styles: no two equal ignoring case, in tag order (a subsequence of the
   * per-tag picks), and every tag's style is present.
   */
  lemma PlanStyles(raw: string, tags: seq<string>)
    ensures var styles := Plan(raw, tags).styles;
            IsSubsequence(styles, Picks(tags))
            && (forall i, j | 0 <= i < j < |styles| :: Lower(styles[i]) != Lower(styles[j]))
            && (forall t | t in tags && StyleOf(t).Some? :: Capitalize(StyleOf(t).value) in styles)
    ensures var styles := Plan(raw, tags).styles;
            styles == Firsts(StyleName, tags)
            && (forall p | p in styles :: exists a | 0 <= a < |tags| :: Gives(StyleName, tags[a], p))
            && (forall i, j | 0 <= i < j < |styles| :: GivenBefore(StyleName, tags, styles[i], styles[j]))
  {
    var u1 := BaseClaim(raw, tags).1;
    var styles := StyleClaim(raw, tags).0;
    assert Plan(raw, tags).styles == styles;
    StyleClaimUsed(raw, tags);
    ClaimAllOrder(u1, Picks(tags));
    ClaimAllKept(u1, Picks(tags));
    ClaimAllComplete(u1, Picks(tags));
    PicksWords(tags);
    PicksComplete(tags);
    forall t | t in tags && StyleOf(t).Some? ensures Capitalize(StyleOf(t).value) in styles {
      var s := StyleOf(t).value;
      var p := Capitalize(s);
      assert p in Picks(tags);
      assert Lower(p) in StyleTerms && Lower(p) !in u1;
      var x :| x in styles && Lower(x) == Lower(p);
      assert x == Capitalize(Lower(x)) == p;
    }
    ClaimPicks(u1, tags);
    FirstsSound(StyleName, tags);
    FirstsOrder(StyleName, tags);
  }

  /**
   * The shape is a tag exactly equal to a shape word whose lower-case form no
   * style has claimed, and it is the first such tag; there is no shape exactly
   * when every tag that is a shape word has been taken by a style.
   */
  lemma PlanShape(raw: string, tags: seq<string>)
    ensures var d := Plan(raw, tags);
            d.shape.Some? ==>
              d.shape.value in tags && d.shape.value in ShapeTerms
              && (forall x | x in d.styles :: Lower(x) != d.shape.value)
              && exists k | 0 <= k < |tags| ::
                   tags[k] == d.shape.value
                   && forall m | 0 <= m < k :: tags[m] !in ShapeTerms || tags[m] in Lowered(d.styles)
    ensures var d := Plan(raw, tags);
            d.shape.None? <==> forall k | 0 <= k < |tags| :: tags[k] !in ShapeTerms || tags[k] in Lowered(d.styles)
  {
    var (styles, u2) := StyleClaim(raw, tags);
    assert Plan(raw, tags).styles == styles && Plan(raw, tags).shape == ShapeFrom(tags, u2, 0);
    StyleClaimLowered(raw, tags);
    ShapeAfterStyles(tags, styles, u2);
  }

  /**
   * Against a used set whose shape words are exactly those of the kept
   * styles, the shape found is the first shape tag no style has taken, and
   * none is found exactly when every shape tag has been taken.
   */
  lemma ShapeAfterStyles(tags: seq<string>, styles: seq<string>, used: set<string>)
    requires forall x | x in used && x in ShapeTerms :: x in Lowered(styles)
    requires forall x | x in styles :: Lower(x) in used
    ensures var shape := ShapeFrom(tags, used, 0);
            shape.Some? ==>
              shape.value in tags && shape.value in ShapeTerms
              && (forall x | x in styles :: Lower(x) != shape.value)
              && exists k | 0 <= k < |tags| ::
                   tags[k] == shape.value
                   && forall m | 0 <= m < k :: tags[m] !in ShapeTerms || tags[m] in Lowered(styles)
    ensures ShapeFrom(tags, used, 0).None? <==>
              forall k | 0 <= k < |tags| :: tags[k] !in ShapeTerms || tags[k] in Lowered(styles)
  {
    var shape := ShapeFrom(tags, used, 0);
    ShapeFromFirst(tags, used, 0);
    forall k | 0 <= k < |tags| ensures !FreeShape(tags[k], used) <==> tags[k] !in ShapeTerms || tags[k] in Lowered(styles) {
      TakenShape(tags[k], styles, used);
    }
    if shape.Some? {
      var s := shape.value;
      ShapeTermsAreWords();
      LowerCapitalize(s);
      var k :| 0 <= k < |tags| && tags[k] == s && forall m | 0 <= m < k :: !FreeShape(tags[m], used);
      forall m | 0 <= m < k && tags[m] in ShapeTerms ensures tags[m] in Lowered(styles) {
        LowerCapitalize(tags[m]);
      }
    }
  }

  /** A shape word is blocked exactly when a kept style has it as its lower-case form. */
  lemma TakenShape(t: string, styles: seq<string>, used: set<string>)
    requires forall x | x in used && x in ShapeTerms :: x in Lowered(styles)
    requires forall x | x in styles :: Lower(x) in used
    ensures !FreeShape(t, used) <==> t !in ShapeTerms || t in Lowered(styles)
  {
    if t in ShapeTerms {
      ShapeTermsAreWords();
      LowerCapitalize(t);
      if t in Lowered(styles) {
        var x :| x in styles && Lower(x) == t;
      }
    }
  }

  /**
   * After the style stage, a shape word is used only if some kept style has
   * it as its lower-case form, and every kept style is used.
   */
  lemma StyleClaimLowered(raw: string, tags: seq<string>)
    ensures var (styles, u2) := StyleClaim(raw, tags);
            (forall x | x in u2 && x in ShapeTerms :: x in Lowered(styles))
            && (forall x | x in styles :: Lower(x) in u2)
  {
    var u1 := BaseClaim(raw, tags).1;
    var (styles, u2) := StyleClaim(raw, tags);
    StyleClaimUsed(raw, tags);
    ClaimAllKept(u1, Picks(tags));
    ClaimAllComplete(u1, Picks(tags));
    PicksWords(tags);
    PicksComplete(tags);
    forall x | x in u2 && x in ShapeTerms ensures x in Lowered(styles) {
      var p :| p in Picks(tags) && Lower(p) == x;
    }
    forall x | x in styles ensures Lower(x) in u2 {
      assert x in Picks(tags);
    }
  }

  /** A tag's style blocks the same word as a shape: a "Heart" style means no "Heart" shape. */
  lemma StyleBlocksShape(raw: string, tags: seq<string>, k: nat)
    requires k < |tags| && StyleOf(tags[k]).Some?
    ensures Plan(raw, tags).shape != Some(StyleOf(tags[k]).value)
  {
    PlanStyles(raw, tags);
    PlanShape(raw, tags);
    var s := StyleOf(tags[k]).value;
    StyleTermsAreWords();
    LowerCapitalize(s);
    assert Capitalize(s) in Plan(raw, tags).styles;
  }

  /** The vocabulary a transformation can claim before the metal and the descriptors. */
  ghost const EarlyTerms: set<string> :=
    {"women's ring", "women's ring set",
     "solitaire", "halo", "heart", "stackable", "eternity", "pavé", "midi",
     "round", "pear", "square"}

  lemma LowerBases()
    ensures Lower(RingBase) == "women's ring" && Lower(SetBase) == "women's ring set"
  {
  }

  lemma LowerMaterials()
    ensures Lower("Stainless Steel") == "stainless steel" && Lower("Brass") == "brass" && Lower("") == ""
  {
  }

  lemma LowerPlatings()
    ensures Lower("Gold-Plated") == "gold-plated" && Lower("Rose Gold-Plated") == "rose gold-plated"
    ensures Lower("Black-Plated") == "black-plated" && Lower("Rhodium-Plated") == "rhodium-plated"
  {
    LowerGoldPlatings();
  }

  // The four platings in one proof context cost about twice as much as two and two.
  lemma LowerGoldPlatings()
    ensures Lower("Gold-Plated") == "gold-plated" && Lower("Rose Gold-Plated") == "rose gold-plated"
  {
  }

  lemma LowerDescriptors()
    ensures Lower(PairCount) == "2 pcs" && Lower(HighPolished) == "high polished" && Lower(Gift) == "gift"
  {
  }

  lemma UsedAfterShapeEarly(raw: string, tags: seq<string>)
    ensures UsedAfterShape(raw, tags) <= EarlyTerms
  {
    StyleClaimUsed(raw, tags);
    LowerBases();
    ShapeFromFirst(tags, StyleClaim(raw, tags).1, 0);
    EarlyUsed(StyleClaim(raw, tags).1, Lower(BaseTerm(IsSet(raw, tags))), Lowered(Picks(tags)), ShapeOf(raw, tags));
  }

  lemma EarlyUsed(used: set<string>, lowerBase: string, styles: set<string>, shape: Option<string>)
    requires used == {lowerBase} + styles
    requires lowerBase in {"women's ring", "women's ring set"}
    requires forall x | x in styles :: x in StyleTerms
    requires shape.Some? ==> shape.value in ShapeTerms
    ensures (if shape.Some? then used + {Lower(Capitalize(shape.value))} else used) <= EarlyTerms
  {
    StylesEarly(styles);
    if shape.Some? {
      ShapeEarly(shape.value);
    }
  }

  lemma StylesEarly(styles: set<string>)
    requires forall x | x in styles :: x in StyleTerms
    ensures styles <= EarlyTerms
  {
  }

  lemma ShapeEarly(shape: string)
    requires shape in ShapeTerms
    ensures Lower(Capitalize(shape)) in EarlyTerms
  {
    ShapeTermsAreWords();
    LowerCapitalize(shape);
  }


  /** A material offered after the shape is never blocked. */
  lemma ClaimMaterial(used: set<string>, material: string)
    requires used <= EarlyTerms
    requires material in {"Stainless Steel", "Brass", ""}
    ensures material != "" ==> Claim(used, material).0 == Some(material)
    ensures Claim(used, material).1 <= EarlyTerms + {"stainless steel", "brass", ""}
  {
    LowerMaterials();
  }

  lemma MaterialClaimKept(raw: string, tags: seq<string>)
    ensures Material(raw, tags) != "" ==> MaterialClaim(raw, tags).0 == Some(Material(raw, tags))
    ensures MaterialClaim(raw, tags).1 <= EarlyTerms + {"stainless steel", "brass", ""}
  {
    UsedAfterShapeEarly(raw, tags);
    ClaimMaterial(UsedAfterShape(raw, tags), Material(raw, tags));
  }

  /** The vocabulary a transformation can claim before the descriptors. */
  ghost const MetalTerms: set<string> :=
    EarlyTerms + {"stainless steel", "brass", "", "gold-plated", "rose gold-plated", "black-plated", "rhodium-plated"}

  /** A plating offered after the material is never blocked. */
  lemma ClaimPlating(used: set<string>, plating: string)
    requires used <= EarlyTerms + {"stainless steel", "brass", ""}
    requires plating in {"Gold-Plated", "Rose Gold-Plated", "Black-Plated", "Rhodium-Plated", ""}
    ensures plating != "" ==> Claim(used, plating).0 == Some(plating)
    ensures Claim(used, plating).1 <= MetalTerms
  {
    LowerPlatings();
  }

  lemma PlatingClaimKept(raw: string, tags: seq<string>)
    ensures Plating(raw, tags) != "" ==> PlatingClaim(raw, tags).0 == Some(Plating(raw, tags))
    ensures PlatingClaim(raw, tags).1 <= MetalTerms
  {
    MaterialClaimKept(raw, tags);
    ClaimPlating(MaterialClaim(raw, tags).1, Plating(raw, tags));
  }

  /** The metal section is the material and plating that were found: neither is lost to the used set. */
  lemma PlanMetal(raw: string, tags: seq<string>)
    ensures Plan(raw, tags).metal == Join(" ", Present([Some(Material(raw, tags)), Some(Plating(raw, tags))]))
  {
    MaterialClaimKept(raw, tags);
    PlatingClaimKept(raw, tags);
    PresentSameTruth(MaterialClaim(raw, tags).0, PlatingClaim(raw, tags).0,
                     Some(Material(raw, tags)), Some(Plating(raw, tags)));
  }

  /** The descriptors offered after the metal are never blocked. */
  lemma ClaimDescriptors(used: set<string>, pairs: bool, polished: bool)
    requires used <= MetalTerms
    ensures var cands := (if pairs then [PairCount] else []) + (if polished then [HighPolished] else []) + [Gift];
            ClaimAll(used, cands).0 == cands
  {
    LowerDescriptors();
    var cands := (if pairs then [PairCount] else []) + (if polished then [HighPolished] else []) + [Gift];
    assert forall i | 0 <= i < |cands| :: Lower(cands[i]) in {"2 pcs", "high polished", "gift"};
    ClaimAllFresh(used, cands);
  }

  /** Every candidate descriptor survives claiming: none of them was used before. */
  lemma PlanDescriptors(raw: string, tags: seq<string>)
    ensures Plan(raw, tags).descriptors == Candidates(raw, IsSet(raw, tags))
  {
    PlatingClaimKept(raw, tags);
    ClaimDescriptors(PlatingClaim(raw, tags).1, IsSet(raw, tags), Contains(Lower(raw), "high polished"));
  }

  /** The style section is empty or has no surrounding whitespace. */
  lemma StyleSectionTrimmed(raw: string, tags: seq<string>)
    ensures var styles := StyleClaim(raw, tags).0;
            Join(" ", styles) == [] || Trimmed(Join(" ", styles))
  {
    var styles := StyleClaim(raw, tags).0;
    PicksWords(tags);
    PicksComplete(tags);
    JoinTrimmed(" ", styles);
  }

  /** Two non-empty trimmed strings glued by any separator give a non-empty trimmed string. */
  lemma GlueTrimmed(a: string, sep: string, b: string)
    requires a != [] && Trimmed(a) && b != [] && Trimmed(b)
    ensures a + sep + b != [] && Trimmed(a + sep + b)
  {
    var g := a + sep + b;
    assert g[0] == a[0] && g[|g| - 1] == b[|b| - 1];
  }

  /** The capitalized colour, or "Clear" when no colour is named, is a non-empty trimmed word. */
  lemma ColourWordTrimmed(raw: string)
    ensures var colour := FindColour(Lower(raw));
            var c := Capitalize(if colour.Some? then colour.value else "clear");
            c != [] && Trimmed(c)
  {
    var colour := FindColour(Lower(raw));
    if colour.Some? {
      FindColourNone(Lower(raw));
      ColoursAreWords();
      CapitalizeTrimmed(colour.value);
    } else {
      CapitalizeClear();
    }
  }

  /** The stone section is never empty and has no surrounding whitespace. */
  lemma StoneSectionTrimmed(raw: string, shape: Option<string>)
    requires shape.Some? ==> shape.value in ShapeTerms
    ensures StoneSection(raw, shape) != [] && Trimmed(StoneSection(raw, shape))
  {
    StoneForm(raw, shape);
    var colour := FindColour(Lower(raw));
    var c := Capitalize(if colour.Some? then colour.value else "clear");
    ColourWordTrimmed(raw);
    var tail := if Contains(Lower(raw), "simulated crystal") then CrystalStone else c + ZirconiaSuffix;
    if !Contains(Lower(raw), "simulated crystal") {
      assert tail[0] == c[0] && tail[|tail| - 1] == ZirconiaSuffix[|ZirconiaSuffix| - 1];
    }
    assert tail != [] && Trimmed(tail);
    if shape.Some? {
      ShapeTermsAreWords();
      CapitalizeTrimmed(shape.value);
      GlueTrimmed(Capitalize(shape.value), " ", tail);
      assert StoneSection(raw, shape) == Capitalize(shape.value) + " " + tail;
    } else {
      assert StoneSection(raw, shape) == tail;
    }
  }

  /** The metal section is empty or has no surrounding whitespace. */
  lemma MetalSectionTrimmed(raw: string, tags: seq<string>)
    ensures Plan(raw, tags).metal == [] || Trimmed(Plan(raw, tags).metal)
  {
    PlanMetal(raw, tags);
    MetalJoinTrimmed(Material(raw, tags), Plating(raw, tags));
  }

  lemma MetalJoinTrimmed(material: string, plating: string)
    requires material in {"Stainless Steel", "Brass", ""}
    requires plating in {"Gold-Plated", "Rose Gold-Plated", "Black-Plated", "Rhodium-Plated", ""}
    ensures var joined := Join(" ", Present([Some(material), Some(plating)]));
            joined == [] || Trimmed(joined)
  {
    MetalWordsTrimmed(material, plating);
    var metals := Present([Some(material), Some(plating)]);
    forall x | x in metals ensures x != [] && Trimmed(x) {
      assert Some(x) in [Some(material), Some(plating)];
    }
    JoinTrimmed(" ", metals);
  }

  lemma MetalWordsTrimmed(material: string, plating: string)
    requires material in {"Stainless Steel", "Brass", ""}
    requires plating in {"Gold-Plated", "Rose Gold-Plated", "Black-Plated", "Rhodium-Plated", ""}
    ensures Trimmed(material) && Trimmed(plating)
  {
  }

  /** Joining a non-empty trimmed head and three sections, each empty or trimmed, with ", ". */
  lemma SectionsTrimmed(head: string, a: string, b: string, c: string)
    requires head != [] && Trimmed(head)
    requires a == [] || Trimmed(a)
    requires b == [] || Trimmed(b)
    requires c == [] || Trimmed(c)
    ensures var joined := Join(", ", Present([Some(head), Some(a), Some(b), Some(c)]));
            joined != [] && Trimmed(joined) && IsPrefix(head, joined)
  {
    var parts := [Some(head), Some(a), Some(b), Some(c)];
    forall x | x in Present(parts) ensures x != [] && Trimmed(x) {
      assert Some(x) in parts;
    }
    JoinTrimmed(", ", Present(parts));
  }

  /** The mandatory part is non-empty, has no surrounding whitespace and starts with the base. */
  lemma MandatoryTrimmed(raw: string, tags: seq<string>)
    ensures var d := Plan(raw, tags);
            Mandatory(d) != [] && Trimmed(Mandatory(d)) && IsPrefix(BaseTerm(IsSet(raw, tags)), Mandatory(d))
  {
    var d := Plan(raw, tags);
    var base := BaseTerm(IsSet(raw, tags));
    StyleClaimUsed(raw, tags);
    assert d.base == Some(base);
    BaseTrimmed(IsSet(raw, tags));
    StyleSectionTrimmed(raw, tags);
    PlanShape(raw, tags);
    StoneSectionTrimmed(raw, d.shape);
    MetalSectionTrimmed(raw, tags);
    DraftTrimmed(d, base);
  }

  /**
   * The mandatory part lists its sections in priority order: the base, the
   * styles (space-separated, left out when there are none), the stone, and
   * the metal (left out when empty), each after ", ".
   */
  lemma MandatoryForm(raw: string, tags: seq<string>)
    ensures var d := Plan(raw, tags);
            Mandatory(d) == BaseTerm(IsSet(raw, tags)) + Glued(", ", Join(" ", d.styles)) + ", " + d.stone + Glued(", ", d.metal)
  {
    var d := Plan(raw, tags);
    var base := BaseTerm(IsSet(raw, tags));
    BaseTrimmed(IsSet(raw, tags));
    PlanShape(raw, tags);
    StoneSectionTrimmed(raw, d.shape);
    JoinPresentForm(", ", base, Join(" ", d.styles), d.stone, d.metal);
    ConcatAssoc(base + Glued(", ", Join(" ", d.styles)), ", ", d.stone);
  }

  /** Every planned style occurs in the mandatory part. */
  lemma MandatoryStyles(raw: string, tags: seq<string>)
    ensures var d := Plan(raw, tags);
            forall x | x in d.styles :: Contains(Mandatory(d), x)
  {
    var d := Plan(raw, tags);
    var base := BaseTerm(IsSet(raw, tags));
    var joined := Join(" ", d.styles);
    var glued := Glued(", ", joined);
    MandatoryForm(raw, tags);
    JoinContains(" ", d.styles);
    forall x | x in d.styles ensures Contains(Mandatory(d), x) {
      ContainsFacts(joined, x, ", ");
      assert Contains(glued, x);
      ContainsFacts(glued, x, base);
      ContainsFacts(base + glued, x, ", ");
      ContainsFacts(base + glued + ", ", x, d.stone);
      ContainsFacts(base + glued + ", " + d.stone, x, Glued(", ", d.metal));
    }
  }

  lemma BaseTrimmed(isSet: bool)
    ensures BaseTerm(isSet) != [] && Trimmed(BaseTerm(isSet))
  {
  }

  /** A draft whose base is present and whose sections are trimmed has a trimmed mandatory part led by the base. */
  lemma DraftTrimmed(d: Draft, base: string)
    requires d.base == Some(base) && base != [] && Trimmed(base)
    requires Join(" ", d.styles) == [] || Trimmed(Join(" ", d.styles))
    requires d.stone != [] && Trimmed(d.stone)
    requires d.metal == [] || Trimmed(d.metal)
    ensures Mandatory(d) != [] && Trimmed(Mandatory(d)) && IsPrefix(base, Mandatory(d))
  {
    SectionsTrimmed(base, Join(" ", d.styles), d.stone, d.metal);
  }

  /**
   * The returned title starts with the whole mandatory part (which is never
   * shortened), which starts with the base; the final strip changes nothing;
   * the title is no longer than the mandatory part or 75 characters,
   * whichever is more.
   */
  lemma TitleStructure(raw: string, tags: seq<string>)
    ensures var d := Plan(raw, tags);
            Title(raw, tags) == AppendWithin(Mandatory(d), d.descriptors, Budget)
            && IsPrefix(Mandatory(d), Title(raw, tags))
            && IsPrefix(BaseTerm(IsSet(raw, tags)), Title(raw, tags))
            && |Title(raw, tags)| <= Max(|Mandatory(d)|, Budget)
  {
    var d := Plan(raw, tags);
    var m := Mandatory(d);
    MandatoryTrimmed(raw, tags);
    PlanDescriptors(raw, tags);
    CandidatesTrimmed(raw, IsSet(raw, tags));
    AppendWithinFinal(BaseTerm(IsSet(raw, tags)), m, d.descriptors);
    assert Title(raw, tags) == Strip(AppendWithin(m, d.descriptors, Budget));
  }

  /**
   * After the mandatory part the title lists some of the planned descriptors,
   * in their planned order, each after ", ", and leaves out none that would
   * still fit within 75 characters.
   */
  lemma TitleDescriptors(raw: string, tags: seq<string>)
    ensures var d := Plan(raw, tags);
            exists sub :: IsSubsequence(sub, d.descriptors) && Title(raw, tags) == Mandatory(d) + Listed(sub)
    ensures var d := Plan(raw, tags);
            forall i | 0 <= i < |d.descriptors| ::
              |Title(raw, tags)| + 2 + |d.descriptors[i]| <= Budget ==> Contains(Title(raw, tags), ", " + d.descriptors[i])
  {
    var d := Plan(raw, tags);
    TitleStructure(raw, tags);
    AppendWithinForm(Mandatory(d), d.descriptors, Budget);
    AppendWithinMaximal(Mandatory(d), d.descriptors, Budget);
  }

  /**
   * The descriptors are tried first fit: starting from the mandatory part,
   * each planned descriptor in turn is appended to the title so far exactly
   * when it keeps it within 75 characters, and the title is what is left
   * after the last one.
   */
  lemma TitleFirstFit(raw: string, tags: seq<string>)
    ensures var d := Plan(raw, tags);
            var m := Mandatory(d);
            var ds := d.descriptors;
            AppendWithin(m, ds[..0], Budget) == m
            && Title(raw, tags) == AppendWithin(m, ds[..|ds|], Budget)
            && forall i | 0 <= i < |ds| ::
                 var t := AppendWithin(m, ds[..i], Budget);
                 AppendWithin(m, ds[..i + 1], Budget) == if |t| + 2 + |ds[i]| <= Budget then t + ", " + ds[i] else t
  {
    var d := Plan(raw, tags);
    TitleStructure(raw, tags);
    AppendWithinGreedy(Mandatory(d), d.descriptors, Budget);
  }

  /** Every descriptor is a non-empty trimmed word. */
  lemma CandidatesTrimmed(raw: string, isSet: bool)
    ensures forall x | x in Candidates(raw, isSet) :: x != [] && Trimmed(x)
  {
    assert forall x | x in Candidates(raw, isSet) :: x in {PairCount, HighPolished, Gift};
  }

  /** Appending trimmed descriptors to a trimmed head keeps its prefixes, and the final strip is a no-op. */
  lemma AppendWithinFinal(base: string, m: string, ds: seq<string>)
    requires m != [] && Trimmed(m) && IsPrefix(base, m)
    requires forall x | x in ds :: x != [] && Trimmed(x)
    ensures var t := AppendWithin(m, ds, Budget);
            Strip(t) == t && IsPrefix(m, t) && IsPrefix(base, t) && |t| <= Max(|m|, Budget)
  {
    var t := AppendWithin(m, ds, Budget);
    AppendWithinTrimmed(m, ds, Budget);
    StripTrimmed(t);
    PrefixOfPrefix(base, m, t);
  }

  // ===========================================================================
  // The imperative composer

  /** The picks of one more tag: the tag's style, if it has one, comes last. */
  lemma PicksSnoc(tags: seq<string>, i: nat)
    requires i < |tags|
    ensures Picks(tags[..i + 1]) ==
              Picks(tags[..i]) + (if StyleOf(tags[i]).Some? then [Capitalize(StyleOf(tags[i]).value)] else [])
  {
    assert tags[..i + 1][..i] == tags[..i];
  }

  /**
   * The inner style loop: claims the first style term the tag contains,
   * capitalized; a tag without one claims nothing.
   */
  method AddStyleOf(used: UsedTerms, tag: string) returns (styled: Option<string>)
    modifies used
    ensures StyleOf(tag).None? ==> styled == None && used.terms == old(used.terms)
    ensures StyleOf(tag).Some? ==> (styled, used.terms) == Claim(old(used.terms), Capitalize(StyleOf(tag).value))
  {
    styled := None;
    var j := 0;
    while j < |StyleTerms|
      invariant 0 <= j <= |StyleTerms|
      invariant StyleFrom(tag, j) == StyleOf(tag)
      invariant used.terms == old(used.terms)
    {
      var style := StyleTerms[j];
      if Contains(tag, style) {
        assert StyleOf(tag) == Some(style);
        styled := used.Add(Capitalize(style));
        return;
      }
      j := j + 1;
    }
  }

  /**
   * Priority 2: for each tag in order, claims the tag's style and keeps it if
   * the claim succeeds.
   */
  method AddStyles(used: UsedTerms, tags: seq<string>) returns (styles: seq<string>)
    modifies used
    ensures (styles, used.terms) == ClaimAll(old(used.terms), Picks(tags))
  {
    ghost var u1 := used.terms;
    styles := [];
    for i := 0 to |tags|
      invariant (styles, used.terms) == ClaimAll(u1, Picks(tags[..i]))
    {
      PicksSnoc(tags, i);
      var style := StyleOf(tags[i]);
      if style.Some? {
        ClaimAllSnoc(u1, Picks(tags[..i]), Capitalize(style.value));
      } else {
        assert Picks(tags[..i + 1]) == Picks(tags[..i]);
      }
      var styled := AddStyleOf(used, tags[i]);
      if Truthy(styled) {
        styles := styles + [styled.value];
      }
      assert style.Some? ==> (styles, used.terms) == ClaimAll(u1, Picks(tags[..i]) + [Capitalize(style.value)]);
    }
    assert tags[..|tags|] == tags;
  }

  /**
   * Priority 3: the default or crystal stone, its "Clear" replaced by the
   * first colour named in the title, behind the first tag that is a shape
   * word not yet used; that shape is marked as used.
   */
  method AddStone(used: UsedTerms, rawTitle: string, tags: seq<string>) returns (stone: string)
    modifies used
    ensures var shape := ShapeFrom(tags, old(used.terms), 0);
            stone == StoneSection(rawTitle, shape)
            && used.terms == if shape.Some? then old(used.terms) + {Lower(Capitalize(shape.value))} else old(used.terms)
  {
    stone := DefaultStone;
    if Contains(Lower(rawTitle), "simulated crystal") {
      stone := CrystalStone;
    }
    var colour := FindColour(Lower(rawTitle));
    if colour.Some? {
      stone := ReplaceAll(stone, "Clear", Capitalize(colour.value));
    }
    var shape := ShapeFrom(tags, used.terms, 0);
    if shape.Some? {
      var shapeTag := Capitalize(shape.value);
      used.Insert(Lower(shapeTag));
      stone := shapeTag + " " + stone;
    }
  }

  /** Priority 4: claims the material, then the plating, and joins those that came back with " ". */
  method AddMetal(used: UsedTerms, rawTitle: string, tags: seq<string>) returns (metalInfo: string)
    modifies used
    ensures var (m, u) := Claim(old(used.terms), Material(rawTitle, tags));
            var (p, u') := Claim(u, Plating(rawTitle, tags));
            metalInfo == Join(" ", Present([m, p])) && used.terms == u'
  {
    var plating := Plating(rawTitle, tags);
    var material := Material(rawTitle, tags);
    var m := used.Add(material);
    var p := used.Add(plating);
    metalInfo := Join(" ", Present([m, p]));
  }

  /** Claims `term` and appends it to `kept` when the claim comes back truthy. */
  method Offer(used: UsedTerms, kept: seq<string>, term: string) returns (kept': seq<string>)
    modifies used
    ensures var (c, u) := Claim(old(used.terms), term);
            kept' == (if Truthy(c) then kept + [c.value] else kept) && used.terms == u
  {
    var added := used.Add(term);
    kept' := kept;
    if Truthy(added) {
      kept' := kept' + [added.value];
    }
  }

  /** Priority 5: offers the pair count (sets only), "High Polished" (when named) and "Gift", in that order. */
  method AddDescriptors(used: UsedTerms, rawTitle: string, isSet: bool) returns (descriptors: seq<string>)
    modifies used
    ensures (descriptors, used.terms) == ClaimAll(old(used.terms), Candidates(rawTitle, isSet))
  {
    ghost var u5 := used.terms;
    var highPolished := Contains(Lower(rawTitle), "high polished");
    ghost var pairs: seq<string> := if isSet then [PairCount] else [];
    ghost var offered := pairs + if highPolished then [HighPolished] else [];
    assert Candidates(rawTitle, isSet) == offered + [Gift];
    descriptors := [];
    if isSet {
      ClaimAllSnoc(u5, [], PairCount);
      assert [] + [PairCount] == pairs;
      descriptors := Offer(used, descriptors, PairCount);
    }
    assert (descriptors, used.terms) == ClaimAll(u5, pairs);
    if highPolished {
      ClaimAllSnoc(u5, pairs, HighPolished);
      descriptors := Offer(used, descriptors, HighPolished);
    }
    assert (descriptors, used.terms) == ClaimAll(u5, offered);
    ClaimAllSnoc(u5, offered, Gift);
    descriptors := Offer(used, descriptors, Gift);
  }

  /** Appends each descriptor after ", " while the title stays within the budget. */
  method FitDescriptors(mandatory: string, descriptors: seq<string>) returns (title: string)
    ensures title == AppendWithin(mandatory, descriptors, Budget)
    ensures IsPrefix(mandatory, title) && |title| <= Max(|mandatory|, Budget)
  {
    title := mandatory;
    for k := 0 to |descriptors|
      invariant AppendWithin(title, descriptors[k..], Budget) == AppendWithin(mandatory, descriptors, Budget)
    {
      assert descriptors[k..][0] == descriptors[k] && descriptors[k..][1..] == descriptors[k + 1..];
      if |title + ", " + descriptors[k]| <= Budget {
        title := title + ", " + descriptors[k];
      }
    }
    assert descriptors[|descriptors|..] == [];
  }

  /** `transform_title(raw_title, tags)`. */
  method TransformTitle(rawTitle: string, tags: seq<string>) returns (finalTitle: string)
    ensures finalTitle == Title(rawTitle, tags)
    ensures IsPrefix(Mandatory(Plan(rawTitle, tags)), finalTitle)
    ensures |finalTitle| <= Max(|Mandatory(Plan(rawTitle, tags))|, Budget)
  {
    // The SKU-stripped title is computed, as in the source, and never read.
    var title := StripSkuPrefix(rawTitle);

    var used := new UsedTerms();

    // Priority 1: audience and product type
    var isSet := "ring sets" in tags || Contains(Lower(rawTitle), "set");
    var base := used.Add(if isSet then SetBase else RingBase);
    assert (base, used.terms) == BaseClaim(rawTitle, tags);

    // Priority 2: styles
    var styles := AddStyles(used, tags);
    assert (styles, used.terms) == StyleClaim(rawTitle, tags);
    var styleStr := Join(" ", styles);

    // Priority 3: stone, and the shape it starts with
    var stone := AddStone(used, rawTitle, tags);
    assert used.terms == UsedAfterShape(rawTitle, tags);
    assert stone == Plan(rawTitle, tags).stone;

    // Priority 4: metal
    var metalInfo := AddMetal(used, rawTitle, tags);
    assert used.terms == PlatingClaim(rawTitle, tags).1;
    assert metalInfo == Plan(rawTitle, tags).metal;

    // Priority 5: optional descriptors
    var descriptors := AddDescriptors(used, rawTitle, isSet);
    assert descriptors == Plan(rawTitle, tags).descriptors;

    // The mandatory sections, then the descriptors that fit
    var parts := Present([base, Some(styleStr), Some(stone), Some(metalInfo)]);
    var mandatory := Join(", ", parts);
    assert mandatory == Mandatory(Plan(rawTitle, tags));
    finalTitle := FitDescriptors(mandatory, descriptors);
    finalTitle := Strip(finalTitle);
    TitleStructure(rawTitle, tags);
  }
}
