/** The two regular-expression rewrites that both revisions of `StripHtml`
    perform, stated over `seq<char>`:
    - `Regex.Replace(text, "<.*?>", replacement)`, where `.` matches any
      character except '\n', so a tag that spans a line break stays;
    - `Regex.Replace(text, @"\s+", " ")` followed by `Trim()`. */
module Markup {
  import opened Wrappers
  import opened DotNet

  // ---------------------------------------------------------------------
  // Tags: the regular expression `<.*?>`
  // ---------------------------------------------------------------------

  /** The `>` at index `j` ends a tag body that starts at index `from`:
      no line break lies in between. */
  predicate Closes(s: string, from: int, j: int) {
    0 <= from <= j < |s| && s[j] == '>' && forall k | from <= k < j :: s[k] != '\n'
  }

  /** `<.*?>` matches `s[i..j + 1]`. */
  predicate TagAt(s: string, i: int, j: int) {
    0 <= i < |s| && s[i] == '<' && Closes(s, i + 1, j)
  }

  ghost predicate HasTag(s: string) {
    exists i, j :: TagAt(s, i, j)
  }

  /** No `>` can be reached from the start of `s` without crossing a line break. */
  ghost predicate Unclosed(s: string) {
    forall j :: !Closes(s, 0, j)
  }

  /** Where the lazy `.*?>` that starts at `from` stops: the first `>`,
      unless a line break comes first. */
  function TagEnd(s: string, from: nat): (r: Option<nat>)
    ensures r.Some? ==> Closes(s, from, r.value)
    ensures r.Some? ==> forall k | from <= k < r.value :: s[k] != '>'
    ensures r.None? ==> forall j :: !Closes(s, from, j)
    decreases |s| - from
  {
    if from >= |s| then None
    else if s[from] == '>' then Some(from)
    else if s[from] == '\n' then None
    else
      assert forall j | Closes(s, from, j) :: Closes(s, from + 1, j);
      TagEnd(s, from + 1)
  }

  /** `Regex.Replace(s, "<.*?>", replacement)`: scanning from the left, each
      shortest `<...>` that does not cross a line break is replaced, and
      scanning resumes after it. */
  function StripTags(s: string, replacement: string): (r: string)
    ensures |replacement| <= 1 ==> |r| <= |s|
    decreases |s|
  {
    if s == [] then []
    else if s[0] == '<' && TagEnd(s, 1).Some? then
      replacement + StripTags(s[TagEnd(s, 1).value + 1..], replacement)
    else
      [s[0]] + StripTags(s[1..], replacement)
  }

  /** Text without a `<` passes through unchanged. */
  lemma {:induction false} StripTagsWithoutOpen(s: string, replacement: string)
    requires '<' !in s
    ensures StripTags(s, replacement) == s
    decreases |s|
  {
    if s != [] {
      assert s == [s[0]] + s[1..];
      StripTagsWithoutOpen(s[1..], replacement);
    }
  }

  lemma StripTagsPlainHead(s: string, replacement: string)
    requires s != [] && s[0] != '<'
    ensures StripTags(s, replacement) == [s[0]] + StripTags(s[1..], replacement)
  {
  }

  lemma StripTagsTagHead(s: string, replacement: string, e: nat)
    requires s != [] && s[0] == '<' && TagEnd(s, 1) == Some(e)
    ensures StripTags(s, replacement) == replacement + StripTags(s[e + 1..], replacement)
  {
  }

  /** One tag `<t>` after text without a `<` is replaced by `replacement`,
      and scanning goes on after its `>`. */
  lemma {:induction false} StripTagsTag(a: string, t: string, c: string, replacement: string)
    requires '<' !in a && '>' !in t && '\n' !in t
    ensures StripTags(a + "<" + t + ">" + c, replacement) == a + replacement + StripTags(c, replacement)
    decreases |a|
  {
    var rc := StripTags(c, replacement);
    if a == [] {
      StripTagsTagFront(t, c, replacement);
      assert a + "<" + t + ">" + c == "<" + t + ">" + c;
      assert a + replacement == replacement;
    } else {
      calc {
        StripTags(a + "<" + t + ">" + c, replacement);
      == { StripTagsPlainBeforeTag(a, t, c, replacement); }
        [a[0]] + StripTags(a[1..] + "<" + t + ">" + c, replacement);
      == { StripTagsTag(a[1..], t, c, replacement); }
        [a[0]] + (a[1..] + replacement + rc);
      == { assert [a[0]] + a[1..] == a; }
        a + replacement + rc;
      }
    }
  }

  /** A first character other than `<` is kept, whatever follows it. */
  lemma StripTagsPlainBeforeTag(a: string, t: string, c: string, replacement: string)
    requires a != [] && a[0] != '<'
    ensures StripTags(a + "<" + t + ">" + c, replacement)
      == [a[0]] + StripTags(a[1..] + "<" + t + ">" + c, replacement)
  {
    var s := a + "<" + t + ">" + c;
    assert s[0] == a[0];
    assert s[1..] == a[1..] + "<" + t + ">" + c;
    StripTagsPlainHead(s, replacement);
  }

  /** A tag at the very start is replaced. */
  lemma StripTagsTagFront(t: string, c: string, replacement: string)
    requires '>' !in t && '\n' !in t
    ensures StripTags("<" + t + ">" + c, replacement) == replacement + StripTags(c, replacement)
  {
    var s := "<" + t + ">" + c;
    var e := |t| + 1;
    assert s[e] == '>';
    assert forall k | 1 <= k < e :: s[k] == t[k - 1];
    assert Closes(s, 1, e);
    assert TagEnd(s, 1) == Some(e);
    assert s[e + 1..] == c;
    StripTagsTagHead(s, replacement, e);
  }

  /** A tag body is unaffected by one character in front of the text. */
  lemma ClosesShift(c: char, t: string, from: nat, j: int)
    ensures Closes([c] + t, from + 1, j + 1) <==> Closes(t, from, j)
  {
    var s := [c] + t;
    assert forall k | 0 <= k < |t| :: s[k + 1] == t[k];
  }

  /** A tag body is unaffected by a prefix in front of the text. */
  lemma ClosesDrop(p: string, t: string, from: nat, j: int)
    ensures Closes(p + t, from + |p|, j + |p|) ==> Closes(t, from, j)
  {
    var s := p + t;
    assert forall k | 0 <= k < |t| :: s[k + |p|] == t[k];
  }

  /** A tag is unaffected by one character in front of the text. */
  lemma TagAtShift(c: char, t: string, i: int, j: int)
    ensures i >= 1 ==> (TagAt([c] + t, i, j) <==> TagAt(t, i - 1, j - 1))
  {
    if i >= 1 {
      ClosesShift(c, t, i, j - 1);
    }
  }

  /** A tag is unaffected by a prefix in front of the text. */
  lemma TagAtDrop(p: string, t: string, i: int, j: int)
    ensures i >= |p| && TagAt(p + t, i, j) ==> TagAt(t, i - |p|, j - |p|)
  {
    if i >= |p| {
      ClosesDrop(p, t, i + 1 - |p|, j - |p|);
    }
  }

  /** A tag body that starts at index 1 also closes from index 0 unless the
      first character is a line break; with a `<` there it is a tag. */
  lemma TagEndFromStart(s: string)
    requires s != []
    ensures s[0] != '\n' && TagEnd(s, 1).Some? ==> Closes(s, 0, TagEnd(s, 1).value)
    ensures s[0] == '<' && TagEnd(s, 1).Some? ==> TagAt(s, 0, TagEnd(s, 1).value)
  {
  }

  /** A text in which no `>` can be reached from the start keeps that
      property when its tags are removed. */
  lemma {:induction false} StripTagsKeepsUnclosed(s: string, replacement: string)
    requires Unclosed(s)
    ensures Unclosed(StripTags(s, replacement))
    decreases |s|
  {
    if s == [] {
      return;
    }
    assert !Closes(s, 0, 0);
    TagEndFromStart(s);
    var t := s[1..];
    assert s == [s[0]] + t;
    var rest := StripTags(t, replacement);
    var r := StripTags(s, replacement);
    assert r == [s[0]] + rest;
    if s[0] == '\n' {
      forall j ensures !Closes(r, 0, j) {
        if j > 0 {
          assert r[0] == '\n';
        }
      }
    } else {
      forall j ensures !Closes(t, 0, j) {
        ClosesShift(s[0], t, 0, j);
        assert Closes(s, 1, j + 1) ==> Closes(s, 0, j + 1);
      }
      StripTagsKeepsUnclosed(t, replacement);
      forall j ensures !Closes(r, 0, j) {
        ClosesShift(s[0], rest, 0, j - 1);
        assert Closes(r, 0, j) && j > 0 ==> Closes(r, 1, j);
      }
    }
  }

  /** After `Regex.Replace(s, "<.*?>", replacement)` no tag is left, as long as
      the replacement brings no angle bracket of its own. */
  lemma {:induction false} StripTagsLeavesNoTag(s: string, replacement: string)
    requires '<' !in replacement && '>' !in replacement
    ensures !HasTag(StripTags(s, replacement))
    decreases |s|
  {
    if s == [] {
      return;
    }
    var r := StripTags(s, replacement);
    if s[0] == '<' && TagEnd(s, 1).Some? {
      var t := s[TagEnd(s, 1).value + 1..];
      var rest := StripTags(t, replacement);
      StripTagsLeavesNoTag(t, replacement);
      assert r == replacement + rest;
      forall i, j ensures !TagAt(r, i, j) {
        TagAtDrop(replacement, rest, i, j);
        assert 0 <= i < |replacement| ==> r[i] == replacement[i];
      }
    } else {
      var t := s[1..];
      var rest := StripTags(t, replacement);
      StripTagsLeavesNoTag(t, replacement);
      assert r == [s[0]] + rest;
      if s[0] == '<' {
        assert s == [s[0]] + t;
        forall j ensures !Closes(t, 0, j) {
          ClosesShift(s[0], t, 0, j);
        }
        StripTagsKeepsUnclosed(t, replacement);
      }
      forall i, j ensures !TagAt(r, i, j) {
        TagAtShift(s[0], rest, i, j);
        ClosesShift(s[0], rest, 0, j - 1);
      }
    }
  }

  /** Text without tags passes through `Regex.Replace(_, "<.*?>", _)` unchanged. */
  lemma {:induction false} StripTagsFixesTagFree(s: string, replacement: string)
    requires !HasTag(s)
    ensures StripTags(s, replacement) == s
    decreases |s|
  {
    if s == [] {
      return;
    }
    TagEndFromStart(s);
    var t := s[1..];
    assert s == [s[0]] + t;
    forall i, j ensures !TagAt(t, i, j) {
      TagAtShift(s[0], t, i + 1, j + 1);
    }
    StripTagsFixesTagFree(t, replacement);
  }

  /** Stripping tags twice is the same as stripping them once. */
  lemma StripTagsIdempotent(s: string, replacement: string)
    requires '<' !in replacement && '>' !in replacement
    ensures StripTags(StripTags(s, replacement), replacement) == StripTags(s, replacement)
  {
    StripTagsLeavesNoTag(s, replacement);
    StripTagsFixesTagFree(StripTags(s, replacement), replacement);
  }

  // ---------------------------------------------------------------------
  // White space: `Regex.Replace(text, @"\s+", " ")` and `Trim()`
  // ---------------------------------------------------------------------

  predicate NoAdjacentWhiteSpace(s: string) {
    forall i | 0 <= i < |s| - 1 :: !(IsWhiteSpace(s[i]) && IsWhiteSpace(s[i + 1]))
  }

  /** Every white-space character is a plain space. */
  predicate OnlySpaces(s: string) {
    forall i | 0 <= i < |s| :: IsWhiteSpace(s[i]) ==> s[i] == ' '
  }

  /** The shape of every `StripHtml` result: single plain spaces between
      words, none at either end. */
  predicate WellSpaced(s: string) {
    && NoAdjacentWhiteSpace(s)
    && OnlySpaces(s)
    && (s == [] || (!IsWhiteSpace(s[0]) && !IsWhiteSpace(s[|s| - 1])))
  }

  /** The text with every white-space character removed: what a reader sees
      of it, regardless of spacing. */
  function NonWhiteSpace(s: string): string {
    if s == [] then []
    else (if IsWhiteSpace(s[0]) then [] else [s[0]]) + NonWhiteSpace(s[1..])
  }

  lemma {:induction false} NonWhiteSpaceAppend(a: string, b: string)
    ensures NonWhiteSpace(a + b) == NonWhiteSpace(a) + NonWhiteSpace(b)
    decreases |a|
  {
    if a == [] {
      assert a + b == b;
    } else {
      assert (a + b)[1..] == a[1..] + b;
      NonWhiteSpaceAppend(a[1..], b);
    }
  }

  lemma {:induction false} NonWhiteSpaceOfBlank(s: string)
    requires IsBlank(s)
    ensures NonWhiteSpace(s) == []
    decreases |s|
  {
    if s != [] {
      NonWhiteSpaceOfBlank(s[1..]);
    }
  }

  /** `Regex.Replace(s, @"\s+", " ")`: every maximal run of white space
      becomes one plain space. */
  function CollapseWhiteSpace(s: string): (r: string)
    ensures r == [] <==> s == []
    ensures s != [] ==> (IsWhiteSpace(r[0]) <==> IsWhiteSpace(s[0]))
    ensures NoAdjacentWhiteSpace(r) && OnlySpaces(r)
    decreases |s|
  {
    if s == [] then []
    else if IsWhiteSpace(s[0]) then " " + CollapseWhiteSpace(TrimStart(s))
    else [s[0]] + CollapseWhiteSpace(s[1..])
  }

  /** The collapse ends in white space exactly when the text does. */
  lemma {:induction false} CollapseLast(s: string)
    requires s != []
    ensures var r := CollapseWhiteSpace(s);
      IsWhiteSpace(r[|r| - 1]) <==> IsWhiteSpace(s[|s| - 1])
    decreases |s|
  {
    if !IsWhiteSpace(s[0]) {
      if |s| > 1 {
        CollapseLast(s[1..]);
      }
    } else {
      var t := TrimStart(s);
      if t != [] {
        assert t[|t| - 1] == s[|s| - 1];
        CollapseLast(t);
      } else {
        assert s[..|s|] == s;
      }
    }
  }

  lemma CollapseVisibleHead(s: string)
    requires s != [] && !IsWhiteSpace(s[0])
    ensures CollapseWhiteSpace(s) == [s[0]] + CollapseWhiteSpace(s[1..])
  {
  }

  lemma CollapseBlankHead(s: string)
    requires s != [] && IsWhiteSpace(s[0])
    ensures CollapseWhiteSpace(s) == " " + CollapseWhiteSpace(TrimStart(s))
  {
  }

  /** A maximal run of white space between two texts becomes exactly one
      plain space, and each side is collapsed on its own. */
  lemma {:induction false} CollapseRun(a: string, w: string, b: string)
    requires w != [] && IsBlank(w)
    requires a == [] || !IsWhiteSpace(a[|a| - 1])
    requires b == [] || !IsWhiteSpace(b[0])
    ensures CollapseWhiteSpace(a + w + b) == CollapseWhiteSpace(a) + " " + CollapseWhiteSpace(b)
    decreases |a|, 1
  {
    if a == [] {
      CollapseRunFront(a, w, b);
    } else if !IsWhiteSpace(a[0]) {
      CollapseRunVisible(a, w, b);
    } else {
      CollapseRunBlank(a, w, b);
    }
  }

  /** A run of white space at the very start becomes one space. */
  lemma CollapseRunFront(a: string, w: string, b: string)
    requires a == [] && w != [] && IsBlank(w)
    requires b == [] || !IsWhiteSpace(b[0])
    ensures CollapseWhiteSpace(a + w + b) == CollapseWhiteSpace(a) + " " + CollapseWhiteSpace(b)
  {
    assert a + w + b == w + b;
    TrimStartPastBlank(w, b);
    CollapseBlankHead(w + b);
  }

  /** Trimming the front of blank text followed by a visible start leaves
      exactly what follows. */
  lemma TrimStartPastBlank(w: string, b: string)
    requires IsBlank(w)
    requires b == [] || !IsWhiteSpace(b[0])
    ensures TrimStart(w + b) == b
  {
    TrimStartAppend(w, b);
    assert b == [] || LeadingBlanks(b) == 0;
  }

  lemma {:induction false} CollapseRunVisible(a: string, w: string, b: string)
    requires w != [] && IsBlank(w)
    requires a != [] && !IsWhiteSpace(a[0]) && !IsWhiteSpace(a[|a| - 1])
    requires b == [] || !IsWhiteSpace(b[0])
    ensures CollapseWhiteSpace(a + w + b) == CollapseWhiteSpace(a) + " " + CollapseWhiteSpace(b)
    decreases |a|, 0
  {
    var ca := CollapseWhiteSpace(a[1..]);
    var cb := CollapseWhiteSpace(b);
    assert |a| > 1 ==> a[1..][|a| - 2] == a[|a| - 1];
    calc {
      CollapseWhiteSpace(a + w + b);
    == { VisibleHeadBeforeRun(a, w, b); }
      [a[0]] + CollapseWhiteSpace(a[1..] + w + b);
    == { CollapseRun(a[1..], w, b); }
      [a[0]] + (ca + " " + cb);
    ==
      ([a[0]] + ca) + " " + cb;
    == { CollapseVisibleHead(a); }
      CollapseWhiteSpace(a) + " " + cb;
    }
  }

  /** A visible first character is kept, whatever follows the text. */
  lemma VisibleHeadBeforeRun(a: string, w: string, b: string)
    requires a != [] && !IsWhiteSpace(a[0])
    ensures CollapseWhiteSpace(a + w + b) == [a[0]] + CollapseWhiteSpace(a[1..] + w + b)
  {
    var s := a + w + b;
    assert s[0] == a[0];
    assert s[1..] == a[1..] + w + b;
    CollapseVisibleHead(s);
  }

  lemma {:induction false} CollapseRunBlank(a: string, w: string, b: string)
    requires w != [] && IsBlank(w)
    requires a != [] && IsWhiteSpace(a[0]) && !IsWhiteSpace(a[|a| - 1])
    requires b == [] || !IsWhiteSpace(b[0])
    ensures CollapseWhiteSpace(a + w + b) == CollapseWhiteSpace(a) + " " + CollapseWhiteSpace(b)
    decreases |a|, 0
  {
    var s := a + w + b;
    var t := TrimStart(a);
    var ct := CollapseWhiteSpace(t);
    var cb := CollapseWhiteSpace(b);
    calc {
      CollapseWhiteSpace(s);
    == { CollapseBlankHead(s); }
      " " + CollapseWhiteSpace(TrimStart(s));
    == { TrimStartBeforeRun(a, w, b); }
      " " + CollapseWhiteSpace(t + w + b);
    == { CollapseRun(t, w, b); }
      " " + (ct + " " + cb);
    ==
      (" " + ct) + " " + cb;
    == { CollapseBlankHead(a); }
      CollapseWhiteSpace(a) + " " + cb;
    }
  }

  /** Leading white space of a text that ends in a visible character is
      trimmed from the text alone, whatever follows it. */
  lemma TrimStartBeforeRun(a: string, w: string, b: string)
    requires a != [] && IsWhiteSpace(a[0]) && !IsWhiteSpace(a[|a| - 1])
    ensures var t := TrimStart(a);
      && TrimStart(a + w + b) == t + w + b
      && t != [] && t[|t| - 1] == a[|a| - 1] && |t| < |a|
  {
    assert !IsBlank(a);
    TrimStartAppend(a, w + b);
    assert a + w + b == a + (w + b);
    assert TrimStart(a) + w + b == TrimStart(a) + (w + b);
  }

  /** Collapsing white space never adds, drops or reorders a visible character. */
  lemma {:induction false} CollapseKeepsNonWhiteSpace(s: string)
    ensures NonWhiteSpace(CollapseWhiteSpace(s)) == NonWhiteSpace(s)
    decreases |s|
  {
    if s == [] {
      return;
    }
    if IsWhiteSpace(s[0]) {
      var t := TrimStart(s);
      CollapseKeepsNonWhiteSpace(t);
      NonWhiteSpaceAppend(" ", CollapseWhiteSpace(t));
      assert s == s[..|s| - |t|] + t;
      NonWhiteSpaceAppend(s[..|s| - |t|], t);
      NonWhiteSpaceOfBlank(s[..|s| - |t|]);
    } else {
      CollapseKeepsNonWhiteSpace(s[1..]);
      NonWhiteSpaceAppend([s[0]], CollapseWhiteSpace(s[1..]));
    }
  }

  /** `Trim()` keeps a contiguous slice and drops only white space around it. */
  lemma TrimIsSlice(t: string) returns (k: nat)
    ensures k + |Trim(t)| <= |t|
    ensures Trim(t) == t[k..k + |Trim(t)|]
    ensures IsBlank(t[..k]) && IsBlank(t[k + |Trim(t)|..])
  {
    var u := TrimStart(t);
    var r := TrimEnd(u);
    k := |t| - |u|;
    assert t[k + |r|..] == u[|r|..];
  }

  /** `Trim()` removes only white space. */
  lemma TrimKeepsNonWhiteSpace(t: string)
    ensures NonWhiteSpace(Trim(t)) == NonWhiteSpace(t)
  {
    var k := TrimIsSlice(t);
    var m := k + |Trim(t)|;
    SplitAt(t, k, m);
    NonWhiteSpaceBetweenBlanks(t[..k], t[k..m], t[m..]);
  }

  /** White space around a text adds nothing visible. */
  lemma NonWhiteSpaceBetweenBlanks(p: string, r: string, q: string)
    requires IsBlank(p) && IsBlank(q)
    ensures NonWhiteSpace(p + (r + q)) == NonWhiteSpace(r)
  {
    NonWhiteSpaceAppend(p, r + q);
    NonWhiteSpaceAppend(r, q);
    NonWhiteSpaceOfBlank(p);
    NonWhiteSpaceOfBlank(q);
  }

  lemma SplitAt(t: string, i: nat, j: nat)
    requires i <= j <= |t|
    ensures t == t[..i] + (t[i..j] + t[j..])
  {
  }

  /** `Trim()` keeps the spacing inside the text. */
  lemma TrimKeepsSpacing(t: string)
    ensures NoAdjacentWhiteSpace(t) ==> NoAdjacentWhiteSpace(Trim(t))
    ensures OnlySpaces(t) ==> OnlySpaces(Trim(t))
  {
    var k := TrimIsSlice(t);
    SliceKeepsSpacing(t, k, k + |Trim(t)|);
  }

  lemma SliceKeepsSpacing(t: string, i: nat, j: nat)
    requires i <= j <= |t|
    ensures NoAdjacentWhiteSpace(t) ==> NoAdjacentWhiteSpace(t[i..j])
    ensures OnlySpaces(t) ==> OnlySpaces(t[i..j])
  {
    assert forall k | 0 <= k < j - i :: t[i..j][k] == t[i + k];
  }

  /** `Regex.Replace(s, @"\s+", " ").Trim()`. */
  function Normalize(s: string): (r: string)
    ensures WellSpaced(r)
    ensures NonWhiteSpace(r) == NonWhiteSpace(s)
    ensures r == [] <==> IsBlank(s)
  {
    var c := CollapseWhiteSpace(s);
    CollapseKeepsNonWhiteSpace(s);
    TrimKeepsNonWhiteSpace(c);
    TrimKeepsSpacing(c);
    CollapseBlank(s);
    Trim(c)
  }

  lemma {:induction false} CollapseBlank(s: string)
    ensures IsBlank(CollapseWhiteSpace(s)) <==> IsBlank(s)
    decreases |s|
  {
    if s != [] && !IsWhiteSpace(s[0]) {
      assert !IsBlank(CollapseWhiteSpace(s));
    } else if s != [] {
      var t := TrimStart(s);
      assert s == s[..|s| - |t|] + t;
      CollapseBlank(t);
      if IsBlank(t) {
        assert IsBlank(s);
        assert CollapseWhiteSpace(t) == [];
      } else {
        assert t[0] == s[|s| - |t|];
        assert !IsWhiteSpace(CollapseWhiteSpace(t)[0]);
        assert CollapseWhiteSpace(s)[1] == CollapseWhiteSpace(t)[0];
      }
    }
  }

  /** Text that is already well spaced is a fixed point of the collapse. */
  lemma {:induction false} CollapseFixesSpaced(s: string)
    requires NoAdjacentWhiteSpace(s) && OnlySpaces(s)
    ensures CollapseWhiteSpace(s) == s
    decreases |s|
  {
    if s == [] {
      return;
    }
    if IsWhiteSpace(s[0]) {
      assert TrimStart(s) == TrimStart(s[1..]);
      assert s[1..] == [] || !IsWhiteSpace(s[1]);
      assert TrimStart(s[1..]) == s[1..];
    }
    CollapseFixesSpaced(s[1..]);
    assert s == [s[0]] + s[1..];
  }

  /** Between two texts that begin and end with visible characters, a run
      of white space becomes exactly one space. */
  lemma NormalizeRun(a: string, w: string, b: string)
    requires w != [] && IsBlank(w)
    requires a != [] && !IsWhiteSpace(a[0]) && !IsWhiteSpace(a[|a| - 1])
    requires b != [] && !IsWhiteSpace(b[0]) && !IsWhiteSpace(b[|b| - 1])
    ensures Normalize(a + w + b) == Normalize(a) + " " + Normalize(b)
  {
    CollapseRun(a, w, b);
    var ca, cb := CollapseWhiteSpace(a), CollapseWhiteSpace(b);
    CollapseLast(a);
    CollapseLast(b);
    TrimFixesVisibleEnds(ca);
    TrimFixesVisibleEnds(cb);
    var j := ca + " " + cb;
    assert j[0] == ca[0] && j[|j| - 1] == cb[|cb| - 1];
    TrimFixesVisibleEnds(j);
  }

  /** Well-spaced text is a fixed point of `Normalize`. */
  lemma NormalizeFixesWellSpaced(s: string)
    requires WellSpaced(s)
    ensures Normalize(s) == s
  {
    CollapseFixesSpaced(s);
    assert TrimStart(s) == s;
    assert TrimEnd(s) == s;
  }

  /** Normalising twice is the same as normalising once. */
  lemma NormalizeIdempotent(s: string)
    ensures Normalize(Normalize(s)) == Normalize(s)
  {
    NormalizeFixesWellSpaced(Normalize(s));
  }
}
