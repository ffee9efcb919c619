/** The part-name formatter `getPartMetadata` (src/utils/modelParser.ts):
    a mesh name such as "front_leftWheel" becomes the display name
    "Front left Wheel" and a description chosen by keyword. */
module PartMetadata {

  // ---------------------------------------------------------------------
  // Characters
  // ---------------------------------------------------------------------

  /** The characters JavaScript's `\s` matches and `String.prototype.trim`
      removes: white space and line terminators. */
  predicate IsWhitespace(c: char) {
    || c == '\t' || c == '\n' || c == '\U{B}' || c == '\U{C}' || c == '\r' || c == ' '
    || c == '\U{A0}' || c == '\U{1680}' || ('\U{2000}' <= c <= '\U{200A}')
    || c == '\U{2028}' || c == '\U{2029}' || c == '\U{202F}' || c == '\U{205F}'
    || c == '\U{3000}' || c == '\U{FEFF}'
  }

  /** What separates the words of a part name: white space and `_`. */
  predicate IsSeparator(c: char) {
    IsWhitespace(c) || c == '_'
  }

  predicate AllWhitespace(w: string) {
    forall i :: 0 <= i < |w| ==> IsWhitespace(w[i])
  }

  predicate AllSeparators(w: string) {
    forall i :: 0 <= i < |w| ==> IsSeparator(w[i])
  }

  predicate IsAsciiUpper(c: char) {
    'A' <= c <= 'Z'
  }

  predicate IsAsciiLower(c: char) {
    'a' <= c <= 'z'
  }

  function ToAsciiUpper(c: char): (u: char)
    ensures IsAsciiLower(c) ==> IsAsciiUpper(u)
    ensures !IsAsciiLower(c) ==> u == c
    ensures IsWhitespace(u) <==> IsWhitespace(c)
    ensures u == '_' <==> c == '_'
  {
    if IsAsciiLower(c) then (c as int - 32) as char else c
  }

  function ToAsciiLower(c: char): (l: char)
    ensures IsAsciiUpper(c) ==> IsAsciiLower(l)
    ensures !IsAsciiUpper(c) ==> l == c
  {
    if IsAsciiUpper(c) then (c as int + 32) as char else c
  }

  /** `toLowerCase`, on ASCII letters. */
  function ToLower(s: string): (r: string)
    ensures |r| == |s|
    ensures forall i :: 0 <= i < |s| ==> r[i] == ToAsciiLower(s[i])
    decreases |s|
  {
    if s == [] then [] else [ToAsciiLower(s[0])] + ToLower(s[1..])
  }

  /** The characters of `s` that are neither white space nor underscore, in
      order: what survives of a name's content once its separators are
      normalised. */
  function Visible(s: string): string
    decreases |s|
  {
    if s == [] then [] else Keep(s[0]) + Visible(s[1..])
  }

  function Keep(c: char): string {
    if IsSeparator(c) then [] else [c]
  }

  lemma {:induction false} VisibleConcat(a: string, b: string)
    ensures Visible(a + b) == Visible(a) + Visible(b)
    decreases |a|
  {
    if a == [] {
      assert a + b == b;
    } else {
      assert (a + b)[0] == a[0];
      assert (a + b)[1..] == a[1..] + b;
      VisibleConcat(a[1..], b);
      calc {
        Visible(a + b);
        Keep(a[0]) + Visible(a[1..] + b);
        Keep(a[0]) + (Visible(a[1..]) + Visible(b));
        (Keep(a[0]) + Visible(a[1..])) + Visible(b);
      }
    }
  }

  // ---------------------------------------------------------------------
  // The shape properties of a display name
  // ---------------------------------------------------------------------

  /** No leading and no trailing white space. */
  predicate Trimmed(s: string) {
    s == [] || (!IsWhitespace(s[0]) && !IsWhitespace(s[|s| - 1]))
  }

  /** Every ASCII upper-case letter after the first position follows white
      space. */
  predicate UppersAfterSpace(s: string) {
    forall i :: 0 < i < |s| && IsAsciiUpper(s[i]) ==> IsWhitespace(s[i - 1])
  }

  /** All white space is a plain space, and no two are adjacent. */
  predicate SingleSpaced(s: string) {
    && (forall i :: 0 <= i < |s| && IsWhitespace(s[i]) ==> s[i] == ' ')
    && (forall i :: 0 < i < |s| && IsWhitespace(s[i]) ==> !IsWhitespace(s[i - 1]))
  }

  lemma UppersAfterSpaceSlice(s: string, lo: nat, hi: nat)
    requires lo <= hi <= |s|
    ensures UppersAfterSpace(s) ==> UppersAfterSpace(s[lo..hi])
  {
    var t := s[lo..hi];
    if UppersAfterSpace(s) {
      forall i | 0 < i < |t| && IsAsciiUpper(t[i])
        ensures IsWhitespace(t[i - 1])
      {
        assert t[i] == s[lo + i] && t[i - 1] == s[lo + i - 1];
      }
    }
  }

  // ---------------------------------------------------------------------
  // The steps of the pipeline
  // ---------------------------------------------------------------------

  /** `.replace(/_/g, ' ')` */
  function ReplaceUnderscores(s: string): (r: string)
    ensures |r| == |s|
    ensures forall i :: 0 <= i < |s| ==> r[i] == if s[i] == '_' then ' ' else s[i]
    ensures '_' !in r
    ensures Visible(r) == Visible(s)
    decreases |s|
  {
    if s == [] then []
    else [if s[0] == '_' then ' ' else s[0]] + ReplaceUnderscores(s[1..])
  }

  lemma {:induction false} ReplaceUnderscoresConcat(a: string, b: string)
    ensures ReplaceUnderscores(a + b) == ReplaceUnderscores(a) + ReplaceUnderscores(b)
    decreases |a|
  {
    if a == [] {
      assert a + b == b;
    } else {
      assert (a + b)[0] == a[0];
      assert (a + b)[1..] == a[1..] + b;
      ReplaceUnderscoresConcat(a[1..], b);
    }
  }

  /** The number of ASCII upper-case letters in `s`. */
  function UpperCount(s: string): nat
    decreases |s|
  {
    if s == [] then 0 else (if IsAsciiUpper(s[0]) then 1 else 0) + UpperCount(s[1..])
  }

  /** Every ASCII upper-case letter of `r` comes right after a space. */
  predicate SpaceBeforeEachUpper(r: string) {
    forall i :: 0 <= i < |r| && IsAsciiUpper(r[i]) ==> 0 < i && r[i - 1] == ' '
  }

  /** `.replace(/([A-Z])/g, ' $1')`: a space goes in before every ASCII
      upper-case letter. One space per letter is added and nothing else:
      `RemoveSpaceBeforeUppercase` takes them out again, and
      `SpaceBeforeUppercaseUnique` shows that this pins the result down. */
  function SpaceBeforeUppercase(s: string): (r: string)
    ensures |r| == |s| + UpperCount(s)
    ensures SpaceBeforeEachUpper(r)
    ensures RemoveSpaceBeforeUppercase(r) == s
    ensures Visible(r) == Visible(s)
    ensures forall c :: c in r ==> c in s || c == ' '
    decreases |s|
  {
    if s == [] then []
    else
      var rest := SpaceBeforeUppercase(s[1..]);
      SpaceBeforeUppercaseStep(s, rest);
      SpacedHead(s[0]) + rest
  }

  /** The space a capital gets in front of it. */
  function UpperGap(c: char): string {
    if IsAsciiUpper(c) then [' '] else []
  }

  /** What `SpaceBeforeUppercase` makes of one character. */
  function SpacedHead(c: char): string {
    UpperGap(c) + [c]
  }

  /** The contract of `SpaceBeforeUppercase` carries over from the rest of
      the string to the whole. */
  lemma SpaceBeforeUppercaseStep(s: string, rest: string)
    requires s != []
    requires |rest| == |s[1..]| + UpperCount(s[1..])
    requires SpaceBeforeEachUpper(rest)
    requires RemoveSpaceBeforeUppercase(rest) == s[1..]
    requires Visible(rest) == Visible(s[1..])
    requires forall c :: c in rest ==> c in s[1..] || c == ' '
    ensures |SpacedHead(s[0]) + rest| == |s| + UpperCount(s)
    ensures SpaceBeforeEachUpper(SpacedHead(s[0]) + rest)
    ensures RemoveSpaceBeforeUppercase(SpacedHead(s[0]) + rest) == s
    ensures Visible(SpacedHead(s[0]) + rest) == Visible(s)
    ensures forall c :: c in SpacedHead(s[0]) + rest ==> c in s || c == ' '
  {
    SpacedHeadUppers(s[0], rest);
    SpacedHeadRemove(s, rest);
    SpacedHeadVisible(s, rest);
    SpacedHeadChars(s, rest);
  }

  lemma SpacedHeadUppers(x: char, rest: string)
    requires SpaceBeforeEachUpper(rest)
    ensures SpaceBeforeEachUpper(SpacedHead(x) + rest)
  {
    var head := SpacedHead(x);
    var r := head + rest;
    forall i | 0 <= i < |r| && IsAsciiUpper(r[i])
      ensures 0 < i && r[i - 1] == ' '
    {
      if i >= |head| {
        assert r[i] == rest[i - |head|];
        if i > |head| {
          assert r[i - 1] == rest[i - 1 - |head|];
        }
      }
    }
  }

  lemma SpacedHeadRemove(s: string, rest: string)
    requires s != []
    requires SpaceBeforeEachUpper(rest)
    requires RemoveSpaceBeforeUppercase(rest) == s[1..]
    ensures RemoveSpaceBeforeUppercase(SpacedHead(s[0]) + rest) == s
  {
    RemoveStep(s[0], rest);
    assert s == [s[0]] + s[1..];
  }

  lemma SpacedHeadVisible(s: string, rest: string)
    requires s != []
    requires Visible(rest) == Visible(s[1..])
    ensures Visible(SpacedHead(s[0]) + rest) == Visible(s)
  {
    VisibleConcat(SpacedHead(s[0]), rest);
    VisibleConcat([s[0]], s[1..]);
    assert s == [s[0]] + s[1..];
  }

  lemma SpacedHeadChars(s: string, rest: string)
    requires s != []
    requires forall c :: c in rest ==> c in s[1..] || c == ' '
    ensures forall c :: c in SpacedHead(s[0]) + rest ==> c in s || c == ' '
  {
    assert s == [s[0]] + s[1..];
  }

  /** Drops the space in front of each ASCII upper-case letter. */
  function RemoveSpaceBeforeUppercase(r: string): string
    decreases |r|
  {
    if r == [] then []
    else if |r| >= 2 && r[0] == ' ' && IsAsciiUpper(r[1]) then [r[1]] + RemoveSpaceBeforeUppercase(r[2..])
    else [r[0]] + RemoveSpaceBeforeUppercase(r[1..])
  }

  lemma SpaceBeforeUppercaseUnfold(s: string)
    requires s != []
    ensures SpaceBeforeUppercase(s) == SpacedHead(s[0]) + SpaceBeforeUppercase(s[1..])
  {
  }

  /** Removing undoes one spaced character, unless a capital follows a
      space of the input. */
  lemma RemoveStep(c: char, rest: string)
    requires rest == [] || !IsAsciiUpper(rest[0])
    ensures RemoveSpaceBeforeUppercase(SpacedHead(c) + rest) == [c] + RemoveSpaceBeforeUppercase(rest)
  {
    var r := SpacedHead(c) + rest;
    if IsAsciiUpper(c) {
      assert r[2..] == rest;
    } else {
      assert r[1..] == rest;
    }
  }

  /** `SpaceBeforeUppercase(s)` is the only string with a space before
      each capital from which removing those spaces gives `s` back. */
  lemma {:induction false} SpaceBeforeUppercaseUnique(s: string, r: string)
    requires SpaceBeforeEachUpper(r)
    requires RemoveSpaceBeforeUppercase(r) == s
    ensures r == SpaceBeforeUppercase(s)
    decreases |r|
  {
    if r != [] {
      var c, tail;
      if |r| >= 2 && r[0] == ' ' && IsAsciiUpper(r[1]) {
        c, tail := r[1], r[2..];
        assert tail != [] ==> tail[0] == r[2];
      } else {
        c, tail := r[0], r[1..];
        assert tail != [] ==> tail[0] == r[1];
      }
      assert r == SpacedHead(c) + tail;
      SpaceBeforeEachUpperTail(SpacedHead(c), tail);
      RemoveStep(c, tail);
      SpaceBeforeUppercaseUnique(s[1..], tail);
      SpaceBeforeUppercaseUnfold(s);
    }
  }

  /** Dropping a front part keeps a space before each capital when the cut
      does not separate a capital from its space. */
  lemma SpaceBeforeEachUpperTail(head: string, tail: string)
    requires SpaceBeforeEachUpper(head + tail)
    requires tail == [] || !IsAsciiUpper(tail[0])
    ensures SpaceBeforeEachUpper(tail)
  {
    var r := head + tail;
    forall i | 0 <= i < |tail| && IsAsciiUpper(tail[i])
      ensures 0 < i && tail[i - 1] == ' '
    {
      assert tail[i] == r[|head| + i];
      assert tail[i - 1] == r[|head| + i - 1];
    }
  }

  lemma {:induction false} SpaceBeforeUppercaseConcat(a: string, b: string)
    ensures SpaceBeforeUppercase(a + b) == SpaceBeforeUppercase(a) + SpaceBeforeUppercase(b)
    decreases |a|
  {
    if a == [] {
      assert a + b == b;
    } else {
      assert (a + b)[0] == a[0];
      assert (a + b)[1..] == a[1..] + b;
      SpaceBeforeUppercaseConcat(a[1..], b);
      SpaceBeforeUppercaseUnfold(a + b);
      SpaceBeforeUppercaseUnfold(a);
      Assoc(SpacedHead(a[0]), SpaceBeforeUppercase(a[1..]), SpaceBeforeUppercase(b));
    }
  }

  /** A string without capitals is left as it is. */
  lemma {:induction false} SpaceBeforeUppercaseNoUpper(s: string)
    requires forall i :: 0 <= i < |s| ==> !IsAsciiUpper(s[i])
    ensures SpaceBeforeUppercase(s) == s
    decreases |s|
  {
    if s != [] {
      SpaceBeforeUppercaseNoUpper(s[1..]);
      assert s == [s[0]] + s[1..];
    }
  }

  /** `r` is what is left of `s` after dropping a prefix. */
  predicate SuffixOf(r: string, s: string) {
    |r| <= |s| && r == s[|s| - |r|..]
  }

  /** Drops leading white space. */
  function TrimStart(s: string): (r: string)
    ensures r == [] || !IsWhitespace(r[0])
    ensures SuffixOf(r, s)
    ensures s != [] && IsWhitespace(s[0]) ==> |r| < |s|
    ensures Visible(r) == Visible(s)
    decreases |s|
  {
    if s == [] || !IsWhitespace(s[0]) then
      TrimStartKeep(s);
      s
    else
      var r := TrimStart(s[1..]);
      TrimStartStep(s, r);
      r
  }

  /** With no leading white space, `s` meets the contract of `TrimStart`. */
  lemma TrimStartKeep(s: string)
    requires s == [] || !IsWhitespace(s[0])
    ensures SuffixOf(s, s)
    ensures !(s != [] && IsWhitespace(s[0]))
  {
    assert s[|s| - |s|..] == s;
  }

  /** Dropping one more leading white-space character keeps the contract
      of `TrimStart`. */
  lemma TrimStartStep(s: string, r: string)
    requires s != [] && IsWhitespace(s[0])
    requires SuffixOf(r, s[1..])
    requires Visible(r) == Visible(s[1..])
    ensures SuffixOf(r, s) && |r| < |s|
    ensures Visible(r) == Visible(s)
  {
    assert s[1..][|s[1..]| - |r|..] == s[|s| - |r|..];
  }

  /** Everything `TrimStart` drops is white space. */
  lemma {:induction false} TrimStartDropsWhitespace(s: string)
    ensures forall i :: 0 <= i < |s| - |TrimStart(s)| ==> IsWhitespace(s[i])
    decreases |s|
  {
    if s != [] && IsWhitespace(s[0]) {
      TrimStartDropsWhitespace(s[1..]);
      assert TrimStart(s) == TrimStart(s[1..]);
      WhitespacePrefixCons(s, |s| - |TrimStart(s)|);
    }
  }

  /** A white-space character in front of a white-space prefix makes a
      longer one. */
  lemma WhitespacePrefixCons(s: string, k: nat)
    requires s != [] && IsWhitespace(s[0]) && 0 < k <= |s|
    requires forall i :: 0 <= i < k - 1 ==> IsWhitespace(s[1..][i])
    ensures forall i :: 0 <= i < k ==> IsWhitespace(s[i])
  {
    forall i | 0 < i < k
      ensures IsWhitespace(s[i])
    {
      assert s[i] == s[1..][i - 1];
    }
  }

  /** Drops trailing white space. */
  function TrimEnd(s: string): (r: string)
    ensures |r| <= |s| && r == s[..|r|]
    ensures forall i :: |r| <= i < |s| ==> IsWhitespace(s[i])
    ensures r == [] || !IsWhitespace(r[|r| - 1])
    ensures Visible(r) == Visible(s)
    decreases |s|
  {
    if s != [] && IsWhitespace(s[|s| - 1]) then
      var init := s[..|s| - 1];
      assert s == init + [s[|s| - 1]];
      VisibleConcat(init, [s[|s| - 1]]);
      TrimEnd(init)
    else s
  }

  /** `.trim()`. `TrimSplit` states that only the white space at either
      end goes. */
  function Trim(s: string): (r: string)
    ensures Trimmed(r)
    ensures Visible(r) == Visible(s)
    ensures forall c :: c in r ==> c in s
    ensures UppersAfterSpace(s) ==> UppersAfterSpace(r)
  {
    TrimBothEnds(s);
    TrimKeepsChars(s);
    TrimKeepsUppersAfterSpace(s);
    TrimEnd(TrimStart(s))
  }

  lemma TrimBothEnds(s: string)
    ensures Trimmed(TrimEnd(TrimStart(s)))
  {
    var front := TrimStart(s);
    var r := TrimEnd(front);
    if r != [] {
      assert r[0] == front[0];
    }
  }

  lemma TrimKeepsChars(s: string)
    ensures forall c :: c in TrimEnd(TrimStart(s)) ==> c in s
  {
    var front := TrimStart(s);
    SuffixKeepsChars(front, s);
    SliceKeepsChars(front, 0, |TrimEnd(front)|);
  }

  lemma TrimKeepsUppersAfterSpace(s: string)
    ensures UppersAfterSpace(s) ==> UppersAfterSpace(TrimEnd(TrimStart(s)))
  {
    var front := TrimStart(s);
    UppersAfterSpaceSlice(s, |s| - |front|, |s|);
    UppersAfterSpaceSlice(front, 0, |TrimEnd(front)|);
  }

  lemma SuffixKeepsChars(r: string, s: string)
    requires SuffixOf(r, s)
    ensures forall c :: c in r ==> c in s
  {
    SliceKeepsChars(s, |s| - |r|, |s|);
  }

  lemma SliceKeepsChars(s: string, lo: nat, hi: nat)
    requires lo <= hi <= |s|
    ensures forall c :: c in s[lo..hi] ==> c in s
  {
    forall c | c in s[lo..hi]
      ensures c in s
    {
      var i :| 0 <= i < hi - lo && s[lo..hi][i] == c;
      assert s[lo + i] == c;
    }
  }

  /** Leading white space is skipped whatever follows it. */
  lemma {:induction false} TrimStartSkip(w: string, y: string)
    requires AllWhitespace(w)
    ensures TrimStart(w + y) == TrimStart(y)
    decreases |w|
  {
    if w == [] {
      assert w + y == y;
    } else {
      assert (w + y)[0] == w[0];
      assert (w + y)[1..] == w[1..] + y;
      TrimStartSkip(w[1..], y);
    }
  }

  /** Once something is left of `x`, what follows `x` is kept whole. */
  lemma {:induction false} TrimStartConcat(x: string, y: string)
    requires TrimStart(x) != []
    ensures TrimStart(x + y) == TrimStart(x) + y
    decreases |x|
  {
    assert (x + y)[0] == x[0];
    if IsWhitespace(x[0]) {
      assert (x + y)[1..] == x[1..] + y;
      TrimStartConcat(x[1..], y);
    }
  }

  /** Trailing white space is dropped whatever precedes it. */
  lemma {:induction false} TrimEndSkip(y: string, w: string)
    requires AllWhitespace(w)
    ensures TrimEnd(y + w) == TrimEnd(y)
    decreases |w|
  {
    if w == [] {
      assert y + w == y;
    } else {
      var init := w[..|w| - 1];
      assert (y + w)[|y + w| - 1] == w[|w| - 1];
      assert (y + w)[..|y + w| - 1] == y + init;
      TrimEndSkip(y, init);
    }
  }

  /** Once something is left of `y`, what precedes `y` is kept whole. */
  lemma {:induction false} TrimEndConcat(x: string, y: string)
    requires TrimEnd(y) != []
    ensures TrimEnd(x + y) == x + TrimEnd(y)
    decreases |y|
  {
    assert (x + y)[|x + y| - 1] == y[|y| - 1];
    if IsWhitespace(y[|y| - 1]) {
      var init := y[..|y| - 1];
      assert (x + y)[..|x + y| - 1] == x + init;
      TrimEndConcat(x, init);
    }
  }

  /** White space alone trims to nothing. */
  lemma {:induction false} TrimStartAllWhitespace(w: string)
    requires AllWhitespace(w)
    ensures TrimStart(w) == []
    decreases |w|
  {
    if w != [] {
      assert forall i :: 0 <= i < |w| - 1 ==> w[1..][i] == w[i + 1];
      TrimStartAllWhitespace(w[1..]);
    }
  }

  /** A string with no white space at either end is its own trim. */
  lemma TrimOfTrimmed(x: string)
    requires Trimmed(x)
    ensures TrimStart(x) == x && TrimEnd(x) == x
  {
  }

  /** `.trim()` removes exactly the white space around the text: whatever
      white space surrounds a string that neither starts nor ends with
      white space, trimming gives that string back. */
  lemma {:induction false} TrimRemovesOuterWhitespace(w1: string, x: string, w2: string)
    requires AllWhitespace(w1) && AllWhitespace(w2) && Trimmed(x)
    ensures Trim(w1 + x + w2) == x
  {
    TrimStartOuter(w1, x, w2);
    TrimOuterEnd(x, w2);
    TrimUnfold(w1 + x + w2);
  }

  lemma TrimStartOuter(w1: string, x: string, w2: string)
    requires AllWhitespace(w1)
    ensures TrimStart(w1 + x + w2) == TrimStart(x + w2)
  {
    assert w1 + x + w2 == w1 + (x + w2);
    TrimStartSkip(w1, x + w2);
  }

  lemma TrimOuterEnd(x: string, w2: string)
    requires AllWhitespace(w2) && Trimmed(x)
    ensures TrimEnd(TrimStart(x + w2)) == x
  {
    TrimOfTrimmed(x);
    if x == [] {
      assert x + w2 == w2;
      TrimStartAllWhitespace(w2);
    } else {
      TrimStartConcat(x, w2);
      TrimEndSkip(x, w2);
    }
  }

  /** `.replace(/\s+/g, ' ')`: every run of white space becomes one
      space (`CollapseRuns`), and the rest is kept (`CollapseKeepsWords`). */
  function CollapseWhitespace(s: string): (r: string)
    ensures s == [] <==> r == []
    ensures s != [] ==> r[0] == (if IsWhitespace(s[0]) then ' ' else s[0])
    decreases |s|
  {
    if s == [] then []
    else if IsWhitespace(s[0]) then [' '] + CollapseWhitespace(TrimStart(s))
    else [s[0]] + CollapseWhitespace(s[1..])
  }

  /** The collapsed string has single plain spaces only. */
  lemma {:induction false} CollapseSingleSpaced(s: string)
    ensures SingleSpaced(CollapseWhitespace(s))
    decreases |s|
  {
    if s != [] {
      if IsWhitespace(s[0]) {
        var rest := TrimStart(s);
        CollapseSpaceStep(s);
        CollapseSingleSpaced(rest);
        SingleSpacedCons(' ', CollapseWhitespace(rest));
      } else {
        CollapseWordStep(s);
        CollapseSingleSpaced(s[1..]);
        SingleSpacedCons(s[0], CollapseWhitespace(s[1..]));
      }
    }
  }

  lemma SingleSpacedCons(x: char, tail: string)
    requires SingleSpaced(tail)
    requires IsWhitespace(x) ==> x == ' ' && (tail == [] || !IsWhitespace(tail[0]))
    ensures SingleSpaced([x] + tail)
  {
    var r := [x] + tail;
    assert forall i :: 1 <= i < |r| ==> r[i] == tail[i - 1];
  }

  /** Collapsing keeps the visible characters and their order. */
  lemma {:induction false} CollapseVisible(s: string)
    ensures Visible(CollapseWhitespace(s)) == Visible(s)
    decreases |s|
  {
    if s != [] {
      if IsWhitespace(s[0]) {
        var rest := TrimStart(s);
        CollapseSpaceStep(s);
        CollapseVisible(rest);
        VisibleConcat([' '], CollapseWhitespace(rest));
      } else {
        CollapseWordStep(s);
        CollapseVisible(s[1..]);
        VisibleConcat([s[0]], CollapseWhitespace(s[1..]));
        VisibleConcat([s[0]], s[1..]);
        assert s == [s[0]] + s[1..];
      }
    }
  }

  /** Collapsing introduces no character but the space. */
  lemma {:induction false} CollapseChars(s: string)
    ensures forall c :: c in CollapseWhitespace(s) ==> c in s || c == ' '
    decreases |s|
  {
    if s != [] {
      if IsWhitespace(s[0]) {
        var rest := TrimStart(s);
        CollapseSpaceStep(s);
        CollapseChars(rest);
        SuffixKeepsChars(rest, s);
      } else {
        CollapseWordStep(s);
        CollapseChars(s[1..]);
        SliceKeepsChars(s, 1, |s|);
        assert s[0] in s;
      }
    }
  }

  /** The last character of `s` is white space. */
  predicate EndsInWhitespace(s: string)
  {
    s != [] && IsWhitespace(s[|s| - 1])
  }

  /** Collapsing ends in white space exactly when the input does. */
  lemma {:induction false} CollapseLast(s: string)
    ensures EndsInWhitespace(CollapseWhitespace(s)) <==> EndsInWhitespace(s)
    decreases |s|
  {
    if s != [] && IsWhitespace(s[0]) {
      var rest := TrimStart(s);
      CollapseSpaceStep(s);
      if rest == [] {
        TrimStartEmpty(s);
      } else {
        TrimStartLast(s);
        CollapseLast(rest);
        EndsInWhitespaceCons(' ', CollapseWhitespace(rest));
      }
    } else if s != [] {
      CollapseWordStep(s);
      CollapseLast(s[1..]);
      EndsInWhitespaceCons(s[0], CollapseWhitespace(s[1..]));
      EndsInWhitespaceCons(s[0], s[1..]);
      assert s == [s[0]] + s[1..];
    }
  }

  lemma EndsInWhitespaceCons(c: char, t: string)
    ensures EndsInWhitespace([c] + t) <==> (if t == [] then IsWhitespace(c) else EndsInWhitespace(t))
  {
  }

  /** When nothing is left after `TrimStart`, the string ends in white
      space. */
  lemma TrimStartEmpty(s: string)
    requires s != [] && TrimStart(s) == []
    ensures IsWhitespace(s[|s| - 1])
  {
    TrimStartDropsWhitespace(s);
  }

  /** What is left after `TrimStart` ends as the string does. */
  lemma TrimStartLast(s: string)
    requires TrimStart(s) != []
    ensures TrimStart(s)[|TrimStart(s)| - 1] == s[|s| - 1]
  {
  }

  lemma UppersAfterSpaceCons(x: char, tail: string)
    requires UppersAfterSpace(tail)
    requires IsWhitespace(x) || tail == [] || !IsAsciiUpper(tail[0])
    ensures UppersAfterSpace([x] + tail)
  {
    var r := [x] + tail;
    forall i | 0 < i < |r| && IsAsciiUpper(r[i])
      ensures IsWhitespace(r[i - 1])
    {
      assert r[i] == tail[i - 1];
    }
  }

  /** An upper-case letter that followed white space still does. */
  lemma {:induction false} CollapseUppers(s: string)
    requires UppersAfterSpace(s)
    ensures UppersAfterSpace(CollapseWhitespace(s))
    decreases |s|
  {
    if s != [] {
      if IsWhitespace(s[0]) {
        var rest := TrimStart(s);
        assert UppersAfterSpace(rest) by {
          UppersAfterSpaceSlice(s, |s| - |rest|, |s|);
        }
        CollapseSpaceStep(s);
        CollapseUppers(rest);
        UppersAfterSpaceCons(' ', CollapseWhitespace(rest));
      } else {
        var rest := s[1..];
        assert UppersAfterSpace(rest) by {
          UppersAfterSpaceSlice(s, 1, |s|);
        }
        assert rest != [] ==> !IsAsciiUpper(rest[0]) by {
          if rest != [] {
            UppersAfterSpaceSecond(s);
          }
        }
        CollapseWordStep(s);
        CollapseUppers(rest);
        UppersAfterSpaceCons(s[0], CollapseWhitespace(rest));
      }
    }
  }

  lemma UppersAfterSpaceSecond(s: string)
    requires |s| > 1 && UppersAfterSpace(s) && !IsWhitespace(s[0])
    ensures !IsAsciiUpper(s[1..][0])
  {
    assert s[1..][0] == s[1];
  }

  /** What trimming leaves of a string that ends in a word ends the same. */
  lemma {:induction false} TrimStartKeepsLast(x: string)
    requires x != [] && !IsWhitespace(x[|x| - 1])
    ensures TrimStart(x) != [] && TrimStart(x)[|TrimStart(x)| - 1] == x[|x| - 1]
    decreases |x|
  {
    if IsWhitespace(x[0]) {
      assert x[1..][|x| - 2] == x[|x| - 1];
      TrimStartKeepsLast(x[1..]);
    }
  }

  lemma CollapseSpaceStep(s: string)
    requires s != [] && IsWhitespace(s[0])
    ensures CollapseWhitespace(s) == [' '] + CollapseWhitespace(TrimStart(s))
  {
  }

  lemma CollapseWordStep(s: string)
    requires s != [] && !IsWhitespace(s[0])
    ensures CollapseWhitespace(s) == [s[0]] + CollapseWhitespace(s[1..])
  {
  }

  lemma Assoc(a: string, b: string, c: string)
    ensures a + b + c == a + (b + c)
  {
  }

  lemma ConsRegroup(r: string, c: char, u: string, v: string)
    requires r == [c] + (u + v)
    ensures r == ([c] + u) + v
  {
  }

  /** Collapsing splits after any character that is not white space. */
  lemma {:induction false} CollapseConcat(x: string, y: string)
    requires x == [] || !IsWhitespace(x[|x| - 1])
    ensures CollapseWhitespace(x + y) == CollapseWhitespace(x) + CollapseWhitespace(y)
    decreases |x|
  {
    if x == [] {
      assert x + y == y;
    } else if IsWhitespace(x[0]) {
      var t := TrimStart(x);
      TrimStartKeepsLast(x);
      CollapseConcatSpace(x, y);
      CollapseConcat(t, y);
      CollapseSpaceStep(x);
      ConsRegroup(CollapseWhitespace(x + y), ' ', CollapseWhitespace(t), CollapseWhitespace(y));
    } else {
      CollapseConcatWord(x, y);
      CollapseConcat(x[1..], y);
      CollapseWordStep(x);
      ConsRegroup(CollapseWhitespace(x + y), x[0], CollapseWhitespace(x[1..]), CollapseWhitespace(y));
    }
  }

  lemma CollapseConcatSpace(x: string, y: string)
    requires x != [] && IsWhitespace(x[0]) && TrimStart(x) != []
    ensures CollapseWhitespace(x + y) == [' '] + CollapseWhitespace(TrimStart(x) + y)
  {
    assert (x + y)[0] == x[0];
    CollapseSpaceStep(x + y);
    TrimStartConcat(x, y);
  }

  lemma CollapseConcatWord(x: string, y: string)
    requires x != [] && !IsWhitespace(x[0])
    ensures CollapseWhitespace(x + y) == [x[0]] + CollapseWhitespace(x[1..] + y)
  {
    assert (x + y)[0] == x[0];
    assert (x + y)[1..] == x[1..] + y;
    CollapseWordStep(x + y);
  }

  /** A run of white space in front of a word becomes a single space. */
  lemma CollapseRun(w: string, b: string)
    requires w != [] && AllWhitespace(w)
    requires b == [] || !IsWhitespace(b[0])
    ensures CollapseWhitespace(w + b) == [' '] + CollapseWhitespace(b)
  {
    assert (w + b)[0] == w[0];
    CollapseSpaceStep(w + b);
    TrimStartSkip(w, b);
  }

  /** `.replace(/\s+/g, ' ')` turns each maximal run of white space into
      exactly one space: the run between `a` and `b` becomes one space,
      and the two sides collapse on their own. */
  lemma {:induction false} CollapseRuns(a: string, w: string, b: string)
    requires a == [] || !IsWhitespace(a[|a| - 1])
    requires w != [] && AllWhitespace(w)
    requires b == [] || !IsWhitespace(b[0])
    ensures CollapseWhitespace(a + w + b) == CollapseWhitespace(a) + [' '] + CollapseWhitespace(b)
  {
    Assoc(a, w, b);
    CollapseConcat(a, w + b);
    CollapseRun(w, b);
    Assoc(CollapseWhitespace(a), [' '], CollapseWhitespace(b));
  }

  /** Collapsing keeps a string without white space as it is. */
  lemma {:induction false} CollapseKeepsWords(v: string)
    requires forall i :: 0 <= i < |v| ==> !IsWhitespace(v[i])
    ensures CollapseWhitespace(v) == v
    decreases |v|
  {
    if v != [] {
      CollapseKeepsWords(v[1..]);
      assert v == [v[0]] + v[1..];
    }
  }

  /** `cleanName.charAt(0).toUpperCase() + cleanName.slice(1)` */
  function Capitalize(s: string): (r: string)
    ensures |r| == |s|
    ensures s != [] ==> r[0] == ToAsciiUpper(s[0]) && r[1..] == s[1..]
  {
    if s == [] then [] else [ToAsciiUpper(s[0])] + s[1..]
  }

  /** The name before its first letter is capitalised; `CleanNameJoin`
      states where its spaces go. */
  function CleanName(partName: string): (clean: string)
    ensures Trimmed(clean) && SingleSpaced(clean) && UppersAfterSpace(clean)
    ensures '_' !in clean
    ensures Visible(clean) == Visible(partName)
  {
    var noUnderscores := ReplaceUnderscores(partName);
    var spaced := SpaceBeforeUppercase(noUnderscores);
    var trimmed := Trim(spaced);
    var collapsed := CollapseWhitespace(trimmed);
    CollapseSingleSpaced(trimmed);
    CollapseVisible(trimmed);
    CollapseChars(trimmed);
    CollapseUppers(trimmed);
    assert Trimmed(collapsed) by {
      CollapseLast(trimmed);
    }
    collapsed
  }

  /** Capitalising a cleaned name keeps its shape, and capitalises its
      first visible character. */
  lemma CapitalizeKeepsShape(clean: string)
    requires Trimmed(clean) && SingleSpaced(clean) && UppersAfterSpace(clean) && '_' !in clean
    ensures var name := Capitalize(clean);
      && '_' !in name
      && Trimmed(name)
      && SingleSpaced(name)
      && (forall i :: 0 < i < |name| && IsAsciiUpper(name[i]) ==> name[i - 1] == ' ')
      && Visible(name) == Capitalize(Visible(clean))
      && (name == [] <==> Visible(clean) == [])
  {
    var name := Capitalize(clean);
    if clean != [] {
      var rest := clean[1..];
      assert clean == [clean[0]] + rest;
      assert name == [name[0]] + rest;
      VisibleConcat([clean[0]], rest);
      VisibleConcat([name[0]], rest);
      assert Visible([clean[0]]) == [clean[0]];
      assert Visible([name[0]]) == [name[0]];
      forall i | 0 < i < |name|
        ensures name[i] == clean[i]
      {
        assert name[i] == rest[i - 1];
      }
    }
  }

  // ---------------------------------------------------------------------
  // Where the spaces of a display name go
  // ---------------------------------------------------------------------

  /** The first two steps of the pipeline. */
  function Spaced(s: string): string {
    SpaceBeforeUppercase(ReplaceUnderscores(s))
  }

  lemma SpacedConcat(a: string, b: string)
    ensures Spaced(a + b) == Spaced(a) + Spaced(b)
  {
    ReplaceUnderscoresConcat(a, b);
    SpaceBeforeUppercaseConcat(ReplaceUnderscores(a), ReplaceUnderscores(b));
  }

  /** Separators become as many white-space characters. */
  lemma SpacedSeparators(w: string)
    requires AllSeparators(w)
    ensures Spaced(w) == ReplaceUnderscores(w)
    ensures AllWhitespace(Spaced(w)) && |Spaced(w)| == |w|
  {
    var r := ReplaceUnderscores(w);
    assert forall i :: 0 <= i < |r| ==> IsWhitespace(r[i]);
    SpaceBeforeUppercaseNoUpper(r);
  }

  /** A character that is not a separator stays, with a space in front when
      it is a capital. */
  lemma SpacedLetter(c: char)
    requires !IsSeparator(c)
    ensures Spaced([c]) == (if IsAsciiUpper(c) then [' '] else []) + [c]
  {
    assert ReplaceUnderscores([c]) == [c];
    assert [c][1..] == [];
  }

  lemma AllWhitespaceConcat(u: string, v: string)
    requires AllWhitespace(u) && AllWhitespace(v)
    ensures AllWhitespace(u + v)
  {
    assert forall i :: |u| <= i < |u + v| ==> (u + v)[i] == v[i - |u|];
  }

  lemma TrimStartSplit(s: string) returns (p: string)
    ensures AllWhitespace(p) && s == p + TrimStart(s)
  {
    var r := TrimStart(s);
    p := s[..|s| - |r|];
    assert AllWhitespace(p) by {
      TrimStartDropsWhitespace(s);
    }
    SplitAtSuffix(s, r);
  }

  lemma SplitAtSuffix(s: string, r: string)
    requires SuffixOf(r, s)
    ensures s == s[..|s| - |r|] + r
  {
    assert s == s[..|s| - |r|] + s[|s| - |r|..];
  }

  lemma TrimEndSplit(s: string) returns (q: string)
    ensures AllWhitespace(q) && s == TrimEnd(s) + q
  {
    var r := TrimEnd(s);
    q := s[|r|..];
    assert s == s[..|r|] + q;
  }

  lemma TrimBothSplit(s: string) returns (p: string, q: string)
    ensures AllWhitespace(p) && AllWhitespace(q)
    ensures s == p + TrimEnd(TrimStart(s)) + q
  {
    p := TrimStartSplit(s);
    q := TrimEndSplit(TrimStart(s));
    Regroup3(s, p, TrimStart(s), TrimEnd(TrimStart(s)), q);
  }

  lemma Regroup3(s: string, p: string, f: string, t: string, q: string)
    requires s == p + f && f == t + q
    ensures s == p + t + q
  {
  }

  /** `.trim()` keeps everything but the white space around it. */
  lemma TrimSplit(s: string) returns (p: string, q: string)
    ensures AllWhitespace(p) && AllWhitespace(q)
    ensures s == p + Trim(s) + q
  {
    p, q := TrimBothSplit(s);
  }

  lemma TrimUnfold(s: string)
    ensures Trim(s) == TrimEnd(TrimStart(s))
  {
  }

  lemma TrimEndKeepsFirst(b: string)
    requires b != [] && !IsWhitespace(b[0])
    ensures TrimEnd(b) != [] && TrimEnd(b)[0] == b[0]
  {
  }

  lemma TrimmedEnds(a: string, b: string)
    requires a != [] && !IsWhitespace(a[|a| - 1])
    requires b != [] && !IsWhitespace(b[0])
    ensures TrimEnd(a) == a && TrimStart(b) == b
  {
  }

  /** Trimming text that has words on both sides of some white space keeps
      that white space and trims each side. */
  lemma {:induction false} TrimAround(a: string, w: string, b: string)
    requires a != [] && !IsWhitespace(a[|a| - 1])
    requires AllWhitespace(w)
    requires b != [] && !IsWhitespace(b[0])
    ensures Trim(a + w + b) == Trim(a) + w + Trim(b)
  {
    TrimAroundStart(a, w, b);
    TrimAroundEnd(TrimStart(a), w, b);
    TrimOfWordEnd(a);
    TrimOfWordStart(b);
    TrimUnfold(a + w + b);
  }

  lemma TrimAroundStart(a: string, w: string, b: string)
    requires a != [] && !IsWhitespace(a[|a| - 1])
    ensures TrimStart(a + w + b) == TrimStart(a) + w + b
  {
    TrimStartKeepsLast(a);
    Assoc(a, w, b);
    TrimStartConcat(a, w + b);
    Assoc(TrimStart(a), w, b);
  }

  lemma TrimAroundEnd(x: string, w: string, b: string)
    requires b != [] && !IsWhitespace(b[0])
    ensures TrimEnd(x + w + b) == x + w + TrimEnd(b)
  {
    TrimEndKeepsFirst(b);
    TrimEndConcat(x + w, b);
  }

  lemma TrimOfWordEnd(a: string)
    requires a != [] && !IsWhitespace(a[|a| - 1])
    ensures Trim(a) == TrimStart(a)
  {
    TrimStartKeepsLast(a);
    TrimmedEnds(TrimStart(a), [a[|a| - 1]]);
    TrimUnfold(a);
  }

  lemma TrimOfWordStart(b: string)
    requires b != [] && !IsWhitespace(b[0])
    ensures Trim(b) == TrimEnd(b)
  {
    TrimmedEnds([b[0]], b);
    TrimUnfold(b);
  }

  lemma CleanNameUnfold(s: string)
    ensures CleanName(s) == CollapseWhitespace(Trim(Spaced(s)))
  {
  }

  lemma Regroup(s: string, w1: string, x: string, w2: string, p: string, t: string, q: string)
    requires s == w1 + x + w2 && x == p + t + q
    ensures s == (w1 + p) + t + (q + w2)
  {
  }

  /** The name of a part name that consists of separators only, or has
      separators around it, is the name without them. */
  lemma {:induction false} CleanNameOuterSeparators(w1: string, x: string, w2: string)
    requires AllSeparators(w1) && AllSeparators(w2)
    ensures CleanName(w1 + x + w2) == CleanName(x)
  {
    SpacedConcat(w1 + x, w2);
    SpacedConcat(w1, x);
    SpacedSeparators(w1);
    SpacedSeparators(w2);
    var sx := Spaced(x);
    var p, q := TrimSplit(sx);
    AllWhitespaceConcat(Spaced(w1), p);
    AllWhitespaceConcat(q, Spaced(w2));
    Regroup(Spaced(w1 + x + w2), Spaced(w1), sx, Spaced(w2), p, Trim(sx), q);
    TrimRemovesOuterWhitespace(Spaced(w1) + p, Trim(sx), q + Spaced(w2));
    CleanNameUnfold(w1 + x + w2);
    CleanNameUnfold(x);
  }

  /** A single character that is not a separator is its own name. */
  lemma CleanNameLetter(c: char)
    requires !IsSeparator(c)
    ensures CleanName([c]) == [c]
  {
    CleanNameUnfold([c]);
    CollapseSpacedTrimLetter(c);
  }

  lemma CollapseSpacedTrimLetter(c: char)
    requires !IsSeparator(c)
    ensures CollapseWhitespace(Trim(Spaced([c]))) == [c]
  {
    SpacedTrimLetter(c);
    CollapseKeepsWords([c]);
  }

  lemma SpacedTrimLetter(c: char)
    requires !IsSeparator(c)
    ensures Trim(Spaced([c])) == [c]
  {
    SpacedLetter(c);
    TrimSkip(UpperGap(c), [c]);
    TrimLetter(c);
  }

  lemma TrimLetter(c: char)
    requires !IsWhitespace(c)
    ensures Trim([c]) == [c]
  {
    TrimUnfold([c]);
  }

  lemma SpacedLast(a: string)
    requires a != [] && !IsSeparator(a[|a| - 1])
    ensures Spaced(a) != [] && Spaced(a)[|Spaced(a)| - 1] == a[|a| - 1]
  {
    var c := a[|a| - 1];
    var a0 := a[..|a| - 1];
    assert a == a0 + [c];
    SpacedConcat(a0, [c]);
    SpacedLetter(c);
    Assoc(Spaced(a0), UpperGap(c), [c]);
  }

  lemma SpacedFirst(b: string)
    requires b != [] && !IsSeparator(b[0])
    ensures Spaced(b) == UpperGap(b[0]) + ([b[0]] + Spaced(b[1..]))
  {
    assert b == [b[0]] + b[1..];
    SpacedConcat([b[0]], b[1..]);
    SpacedLetter(b[0]);
    Assoc(UpperGap(b[0]), [b[0]], Spaced(b[1..]));
  }

  lemma Regroup4(s: string, x: string, u: string, v: string, y: string)
    requires s == (x + u) + (v + y)
    ensures s == x + (u + v) + y
  {
  }

  /** Spacing two pieces with separators between them puts the spaced
      separators, and the space before a capital, between the two. */
  lemma SpacedJoin(a: string, w: string, b: string)
    requires AllSeparators(w)
    requires b != [] && !IsSeparator(b[0])
    ensures Spaced(a + w + b) == Spaced(a) + JoinGap(w, b[0]) + ([b[0]] + Spaced(b[1..]))
  {
    SpacedFirst(b);
    SpacedConcat(a + w, b);
    SpacedConcat(a, w);
    Regroup4(Spaced(a + w + b), Spaced(a), Spaced(w), UpperGap(b[0]), [b[0]] + Spaced(b[1..]));
  }

  /** Leading white space does not change the trim. */
  lemma TrimSkip(g: string, x: string)
    requires AllWhitespace(g)
    ensures Trim(g + x) == Trim(x)
  {
    TrimStartSkip(g, x);
    TrimUnfold(g + x);
    TrimUnfold(x);
  }

  /** Collapsing two words with white space, or nothing, between them. */
  lemma CollapseGap(ta: string, gap: string, tb: string)
    requires ta == [] || !IsWhitespace(ta[|ta| - 1])
    requires AllWhitespace(gap)
    requires tb == [] || !IsWhitespace(tb[0])
    ensures CollapseWhitespace(ta + gap + tb) ==
            CollapseWhitespace(ta) + (if gap == [] then [] else [' ']) + CollapseWhitespace(tb)
  {
    if gap == [] {
      assert ta + gap + tb == ta + tb;
      CollapseConcat(ta, tb);
    } else {
      CollapseRuns(ta, gap, tb);
    }
  }

  /** What ends up between two pieces: the spaced separators and the space
      before a capital. */
  function JoinGap(w: string, first: char): string {
    Spaced(w) + UpperGap(first)
  }

  lemma JoinGapFacts(w: string, first: char)
    requires AllSeparators(w)
    ensures AllWhitespace(JoinGap(w, first))
    ensures JoinGap(w, first) == [] <==> !(w != [] || IsAsciiUpper(first))
  {
    SpacedSeparators(w);
    AllWhitespaceConcat(Spaced(w), UpperGap(first));
  }

  /** Trimming keeps a final word. */
  lemma TrimKeepsLast(x: string)
    requires x != [] && !IsWhitespace(x[|x| - 1])
    ensures Trim(x) != []
  {
    TrimStartKeepsLast(x);
    TrimmedEnds(TrimStart(x), [x[|x| - 1]]);
    TrimUnfold(x);
  }

  /** Spacing and trimming a name that starts or ends in a letter leaves
      something. */
  lemma SpacedTrimNonEmpty(a: string, b: string)
    requires a != [] && !IsSeparator(a[|a| - 1])
    requires b != [] && !IsSeparator(b[0])
    ensures Trim(Spaced(a)) != [] && Trim(Spaced(b)) != []
  {
    SpacedLast(a);
    TrimKeepsLast(Spaced(a));
    SpacedTrimFirst(b);
  }

  lemma SpacedTrimFirst(b: string)
    requires b != [] && !IsSeparator(b[0])
    ensures Trim(Spaced(b)) != []
  {
    SpacedFirst(b);
    var sb := [b[0]] + Spaced(b[1..]);
    TrimSkip(UpperGap(b[0]), sb);
    TrimKeepsFirst(sb);
  }

  /** Trimming keeps a first word. */
  lemma TrimKeepsFirst(x: string)
    requires x != [] && !IsWhitespace(x[0])
    ensures Trim(x) != []
  {
    TrimEndKeepsFirst(x);
    TrimmedEnds([x[0]], x);
    TrimUnfold(x);
  }

  lemma {:induction false} SpacedTrimJoin(a: string, w: string, b: string)
    requires a != [] && !IsSeparator(a[|a| - 1])
    requires AllSeparators(w)
    requires b != [] && !IsSeparator(b[0])
    ensures Trim(Spaced(a + w + b)) == Trim(Spaced(a)) + JoinGap(w, b[0]) + Trim(Spaced(b))
  {
    var sa, gap, sb := Spaced(a), JoinGap(w, b[0]), [b[0]] + Spaced(b[1..]);
    assert Spaced(a + w + b) == sa + gap + sb by {
      SpacedJoin(a, w, b);
    }
    assert Trim(sa + gap + sb) == Trim(sa) + gap + Trim(sb) by {
      SpacedLast(a);
      JoinGapFacts(w, b[0]);
      TrimAround(sa, gap, sb);
    }
    assert Trim(Spaced(b)) == Trim(sb) by {
      TrimSpacedFirst(b);
    }
  }

  /** Trimming drops the space a leading capital gets. */
  lemma TrimSpacedFirst(b: string)
    requires b != [] && !IsSeparator(b[0])
    ensures Trim(Spaced(b)) == Trim([b[0]] + Spaced(b[1..]))
  {
    SpacedFirst(b);
    TrimSkip(UpperGap(b[0]), [b[0]] + Spaced(b[1..]));
  }

  /** The unfolded pipeline of `CleanNameJoin`. */
  lemma {:induction false} PipelineJoin(a: string, w: string, b: string)
    requires a != [] && !IsSeparator(a[|a| - 1])
    requires AllSeparators(w)
    requires b != [] && !IsSeparator(b[0])
    ensures Trim(Spaced(a)) != [] && Trim(Spaced(b)) != []
    ensures CollapseWhitespace(Trim(Spaced(a + w + b))) ==
            CollapseWhitespace(Trim(Spaced(a))) + (if w != [] || IsAsciiUpper(b[0]) then [' '] else [])
            + CollapseWhitespace(Trim(Spaced(b)))
  {
    SpacedTrimNonEmpty(a, b);
    JoinGapFacts(w, b[0]);
    SpacedTrimJoin(a, w, b);
    CollapseGap(Trim(Spaced(a)), JoinGap(w, b[0]), Trim(Spaced(b)));
  }

  /** Where the spaces go: two pieces of a part name, with only separators
      between them, give a name that is the two pieces' names joined by one
      space when there was a separator between them or the second piece
      starts with a capital, and joined directly otherwise. */
  lemma {:induction false} CleanNameJoin(a: string, w: string, b: string)
    requires a != [] && !IsSeparator(a[|a| - 1])
    requires AllSeparators(w)
    requires b != [] && !IsSeparator(b[0])
    ensures CleanName(a) != [] && CleanName(b) != []
    ensures CleanName(a + w + b) ==
            CleanName(a) + (if w != [] || IsAsciiUpper(b[0]) then [' '] else []) + CleanName(b)
  {
    PipelineJoin(a, w, b);
    CleanNameUnfold(a);
    CleanNameUnfold(b);
    CleanNameUnfold(a + w + b);
  }

  lemma CapitalizeConcat(x: string, y: string)
    requires x != []
    ensures Capitalize(x + y) == Capitalize(x) + y
  {
    assert (x + y)[0] == x[0];
    assert (x + y)[1..] == x[1..] + y;
  }

  /** The display name of two pieces: the first piece's display name, then
      one space when there was a separator between the pieces or the second
      starts with a capital, then the second piece's name as it is. */
  lemma DisplayNameJoin(a: string, w: string, b: string)
    requires a != [] && !IsSeparator(a[|a| - 1])
    requires AllSeparators(w)
    requires b != [] && !IsSeparator(b[0])
    ensures GetPartMetadata(a + w + b).name ==
            GetPartMetadata(a).name + (if w != [] || IsAsciiUpper(b[0]) then [' '] else []) + CleanName(b)
  {
    CleanNameJoin(a, w, b);
    var sep: string := if w != [] || IsAsciiUpper(b[0]) then [' '] else [];
    CapitalizeConcat(CleanName(a), sep + CleanName(b));
    Assoc(CleanName(a), sep, CleanName(b));
    Assoc(Capitalize(CleanName(a)), sep, CleanName(b));
    DisplayNameUnfold(a);
    DisplayNameUnfold(a + w + b);
  }

  lemma DisplayNameUnfold(partName: string)
    ensures GetPartMetadata(partName).name == Capitalize(CleanName(partName))
  {
  }

  /** Separators around a part name do not change its display name. */
  lemma DisplayNameOuterSeparators(w1: string, x: string, w2: string)
    requires AllSeparators(w1) && AllSeparators(w2)
    ensures GetPartMetadata(w1 + x + w2).name == GetPartMetadata(x).name
  {
    CleanNameOuterSeparators(w1, x, w2);
    DisplayNameUnfold(w1 + x + w2);
    DisplayNameUnfold(x);
  }

  /** A one-character part name displays as that character upper-cased. */
  lemma DisplayNameLetter(c: char)
    requires !IsSeparator(c)
    ensures GetPartMetadata([c]).name == [ToAsciiUpper(c)]
  {
    CleanNameLetter(c);
    DisplayNameUnfold([c]);
  }

  // ---------------------------------------------------------------------
  // Descriptions
  // ---------------------------------------------------------------------

  /** `haystack.includes(needle)` */
  function Contains(haystack: string, needle: string): bool
    decreases |haystack|
  {
    needle <= haystack || (haystack != [] && Contains(haystack[1..], needle))
  }

  /** `needle` is the slice of `haystack` that starts at `i`. */
  predicate OccursAt(haystack: string, needle: string, i: nat) {
    i + |needle| <= |haystack| && haystack[i..i + |needle|] == needle
  }

  lemma SliceOfTail(h: string, j: nat, m: nat)
    requires j + m < |h|
    ensures h[1..][j..j + m] == h[j + 1..j + 1 + m]
  {
    var a, b := h[1..][j..j + m], h[j + 1..j + 1 + m];
    forall k | 0 <= k < m
      ensures a[k] == b[k]
    {
    }
  }

  /** An occurrence at index 0 is a prefix. */
  lemma OccursAtStart(h: string, needle: string)
    ensures OccursAt(h, needle, 0) <==> needle <= h
  {
  }

  /** Occurrences in the tail are the occurrences after the first index. */
  lemma OccursInTail(h: string, needle: string, i: nat)
    requires h != [] && 0 < i
    ensures OccursAt(h[1..], needle, i - 1) <==> OccursAt(h, needle, i)
  {
    if i - 1 + |needle| < |h| {
      SliceOfTail(h, i - 1, |needle|);
    }
  }

  /** `String.prototype.includes`: `Contains` holds exactly when the needle
      occurs somewhere in the haystack. */
  lemma {:induction false} ContainsIsSubstring(haystack: string, needle: string)
    ensures Contains(haystack, needle) <==> exists i: nat :: OccursAt(haystack, needle, i)
    decreases |haystack|
  {
    OccursAtStart(haystack, needle);
    if needle <= haystack {
    } else if haystack == [] {
      assert forall i: nat :: !OccursAt(haystack, needle, i);
    } else {
      var tail := haystack[1..];
      ContainsIsSubstring(tail, needle);
      if j: nat :| OccursAt(tail, needle, j) {
        OccursInTail(haystack, needle, j + 1);
      }
      if i: nat :| OccursAt(haystack, needle, i) {
        OccursInTail(haystack, needle, i);
      }
    }
  }

  const DefaultDescription := "Component of the model"
  const WheelDescription := "Provides traction and supports the vehicle weight"
  const EngineDescription := "Power generation unit that drives the vehicle"
  const DoorDescription := "Provides access to the interior cabin"
  const WindowDescription := "Transparent panel for visibility and protection"
  const BodyDescription := "Main structural framework and exterior shell"
  const LightDescription := "Illumination system for visibility and signaling"
  const SeatDescription := "Passenger seating and comfort system"
  const ExhaustDescription := "Exhaust gas routing and emission system"
  const BumperDescription := "Impact protection and aerodynamic element"

  /** The `if ... else if` ladder on the lower-cased name. */
  function Describe(lowerName: string): (description: string)
    ensures description in {DefaultDescription, WheelDescription, EngineDescription, DoorDescription,
                            WindowDescription, BodyDescription, LightDescription, SeatDescription,
                            ExhaustDescription, BumperDescription}
  {
    if Contains(lowerName, "wheel") || Contains(lowerName, "tire") then WheelDescription
    else if Contains(lowerName, "engine") || Contains(lowerName, "motor") then EngineDescription
    else if Contains(lowerName, "door") then DoorDescription
    else if Contains(lowerName, "window") || Contains(lowerName, "glass") then WindowDescription
    else if Contains(lowerName, "body") || Contains(lowerName, "chassis") then BodyDescription
    else if Contains(lowerName, "light") || Contains(lowerName, "lamp") then LightDescription
    else if Contains(lowerName, "seat") then SeatDescription
    else if Contains(lowerName, "exhaust") || Contains(lowerName, "pipe") then ExhaustDescription
    else if Contains(lowerName, "bumper") then BumperDescription
    else DefaultDescription
  }

  /** One rung of the ladder: its keywords and its description. */
  datatype Rule = Rule(keywords: seq<string>, description: string)

  /** The ladder as a table, in the order it is tested: the reference
      definition that `DescribeIsFirstMatch` checks `Describe` against. */
  const Rules: seq<Rule> := [
    Rule(["wheel", "tire"], WheelDescription),
    Rule(["engine", "motor"], EngineDescription),
    Rule(["door"], DoorDescription),
    Rule(["window", "glass"], WindowDescription),
    Rule(["body", "chassis"], BodyDescription),
    Rule(["light", "lamp"], LightDescription),
    Rule(["seat"], SeatDescription),
    Rule(["exhaust", "pipe"], ExhaustDescription),
    Rule(["bumper"], BumperDescription)
  ]

  /** Some keyword of `keywords` occurs in the name. */
  predicate AnyOccurs(keywords: seq<string>, lowerName: string)
    decreases |keywords|
  {
    keywords != [] && (Contains(lowerName, keywords[0]) || AnyOccurs(keywords[1..], lowerName))
  }

  /** Reference definition: the description of the first rule from
      position `from` on one of whose keywords occurs in the name, or the
      default when none does. */
  function FirstMatch(rules: seq<Rule>, from: nat, lowerName: string): string
    requires from <= |rules|
    decreases |rules| - from
  {
    if from == |rules| then DefaultDescription
    else if AnyOccurs(rules[from].keywords, lowerName) then rules[from].description
    else FirstMatch(rules, from + 1, lowerName)
  }

  /** With no matching rule from `from` on, `FirstMatch` is the default. */
  lemma {:induction false} FirstMatchDefault(rules: seq<Rule>, from: nat, lowerName: string)
    requires from <= |rules|
    requires forall i :: from <= i < |rules| ==> !AnyOccurs(rules[i].keywords, lowerName)
    ensures FirstMatch(rules, from, lowerName) == DefaultDescription
    decreases |rules| - from
  {
    if from < |rules| {
      FirstMatchDefault(rules, from + 1, lowerName);
    }
  }

  /** `FirstMatch` picks rule `i` when it matches and no rule before it
      (from `from` on) does. */
  lemma {:induction false} FirstMatchIsFirst(rules: seq<Rule>, from: nat, lowerName: string, i: nat)
    requires from <= i < |rules|
    requires AnyOccurs(rules[i].keywords, lowerName)
    requires forall j :: from <= j < i ==> !AnyOccurs(rules[j].keywords, lowerName)
    ensures FirstMatch(rules, from, lowerName) == rules[i].description
    decreases i - from
  {
    if from < i {
      FirstMatchIsFirst(rules, from + 1, lowerName, i);
    }
  }

  /** The descriptions of the rules, none of which is the default. */
  function RuleDescriptions(): (ds: set<string>)
    ensures DefaultDescription !in ds
    ensures forall k :: 0 <= k < |Rules| ==> Rules[k].description in ds
  {
    set k | 0 <= k < |Rules| :: Rules[k].description
  }

  /** A matching rule from `from` on makes `FirstMatch` a rule's
      description. */
  lemma {:induction false} FirstMatchFound(rules: seq<Rule>, from: nat, lowerName: string, k: nat)
    requires from <= k < |rules| && AnyOccurs(rules[k].keywords, lowerName)
    ensures exists j :: from <= j < |rules| && FirstMatch(rules, from, lowerName) == rules[j].description
    decreases k - from
  {
    if AnyOccurs(rules[from].keywords, lowerName) {
      assert FirstMatch(rules, from, lowerName) == rules[from].description;
    } else {
      FirstMatchFound(rules, from + 1, lowerName, k);
    }
  }

  /** A part gets the default description exactly when none of the ladder's
      keywords occurs in its lower-cased name. */
  lemma DescribeDefault(lowerName: string)
    ensures Describe(lowerName) == DefaultDescription <==>
            forall k :: 0 <= k < |Rules| ==> !AnyOccurs(Rules[k].keywords, lowerName)
  {
    DescribeIsFirstMatch(lowerName);
    if k :| 0 <= k < |Rules| && AnyOccurs(Rules[k].keywords, lowerName) {
      FirstMatchFound(Rules, 0, lowerName, k);
      var _ := RuleDescriptions();
    } else {
      FirstMatchDefault(Rules, 0, lowerName);
    }
  }

  lemma OccursOne(a: string, n: string)
    ensures AnyOccurs([a], n) <==> Contains(n, a)
  {
    assert [a][1..] == [];
  }

  lemma OccursTwo(a: string, b: string, n: string)
    ensures AnyOccurs([a, b], n) <==> Contains(n, a) || Contains(n, b)
  {
    assert [a, b][1..] == [b];
    OccursOne(b, n);
  }

  /** The ladder picks the description of the first rule that matches. */
  lemma DescribeIsFirstMatch(lowerName: string)
    ensures Describe(lowerName) == FirstMatch(Rules, 0, lowerName)
  {
    var n := lowerName;
    OccursTwo("wheel", "tire", n);
    OccursTwo("engine", "motor", n);
    OccursOne("door", n);
    OccursTwo("window", "glass", n);
    OccursTwo("body", "chassis", n);
    OccursTwo("light", "lamp", n);
    OccursOne("seat", n);
    OccursTwo("exhaust", "pipe", n);
    OccursOne("bumper", n);
    assert FirstMatch(Rules, 9, n) == DefaultDescription;
    assert FirstMatch(Rules, 8, n) == if Contains(n, "bumper") then BumperDescription else DefaultDescription;
    assert FirstMatch(Rules, 7, n) == if Contains(n, "exhaust") || Contains(n, "pipe") then ExhaustDescription else FirstMatch(Rules, 8, n);
    assert FirstMatch(Rules, 6, n) == if Contains(n, "seat") then SeatDescription else FirstMatch(Rules, 7, n);
    assert FirstMatch(Rules, 5, n) == if Contains(n, "light") || Contains(n, "lamp") then LightDescription else FirstMatch(Rules, 6, n);
    assert FirstMatch(Rules, 4, n) == if Contains(n, "body") || Contains(n, "chassis") then BodyDescription else FirstMatch(Rules, 5, n);
    assert FirstMatch(Rules, 3, n) == if Contains(n, "window") || Contains(n, "glass") then WindowDescription else FirstMatch(Rules, 4, n);
    assert FirstMatch(Rules, 2, n) == if Contains(n, "door") then DoorDescription else FirstMatch(Rules, 3, n);
    assert FirstMatch(Rules, 1, n) == if Contains(n, "engine") || Contains(n, "motor") then EngineDescription else FirstMatch(Rules, 2, n);
  }

  /** What the display shows for a part. */
  datatype PartInfo = PartInfo(name: string, description: string)

  /** `getPartMetadata`. The name is the part name's visible characters in
      order, the first one upper-cased; where single spaces go between them
      (wherever the part name had underscores or white space, and before
      every other ASCII upper-case letter) is stated by `DisplayNameJoin`,
      `DisplayNameOuterSeparators` and `DisplayNameLetter`. The description
      is that of the first rule whose keyword occurs in the lower-cased part
      name. */
  function GetPartMetadata(partName: string): (info: PartInfo)
    ensures '_' !in info.name
    ensures Trimmed(info.name) && SingleSpaced(info.name)
    ensures forall i :: 0 < i < |info.name| && IsAsciiUpper(info.name[i]) ==> info.name[i - 1] == ' '
    ensures Visible(info.name) == Capitalize(Visible(partName))
    ensures info.name == [] <==> Visible(partName) == []
    ensures info.description == FirstMatch(Rules, 0, ToLower(partName))
  {
    var clean := CleanName(partName);
    CapitalizeKeepsShape(clean);
    DescribeIsFirstMatch(ToLower(partName));
    PartInfo(Capitalize(clean), Describe(ToLower(partName)))
  }

  /** Lower-casing keeps a prefix a prefix. */
  lemma {:induction false} PrefixLowered(k: string, s: string)
    requires k <= s
    ensures ToLower(k) <= ToLower(s)
    decreases |k|
  {
    if k != [] {
      assert k[1..] <= s[1..];
      PrefixLowered(k[1..], s[1..]);
    }
  }

  /** Keyword matching ignores ASCII case: a keyword that occurs in the name
      in any mix of cases occurs, lower-cased, in the lower-cased name. */
  lemma {:induction false} ContainsLowered(s: string, k: string)
    requires Contains(s, k)
    ensures Contains(ToLower(s), ToLower(k))
    decreases |s|
  {
    if k <= s {
      PrefixLowered(k, s);
    } else {
      ContainsLowered(s[1..], k);
      assert ToLower(s)[1..] == ToLower(s[1..]);
    }
  }
}
