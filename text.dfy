/** String operations the service relies on: ASCII case folding (`str.lower`),
    substring search (`needle in hay`), whitespace stripping (`str.strip`) and
    the page concatenation shared by both text extractors. */
module Text {

  /** ASCII upper-case letter. */
  predicate IsUpper(c: char) {
    'A' <= c <= 'Z'
  }

  /** Case folding of one character, restricted to ASCII letters. */
  function LowerChar(c: char): (d: char)
    ensures !IsUpper(d)
    ensures d == c <==> !IsUpper(c)
    ensures IsUpper(c) ==> d as int == c as int + 32
  {
    if IsUpper(c) then (c as int + 32) as char else c
  }

  /** `s.lower()`: every character folded, nothing added or removed. */
  function Lower(s: string): (r: string)
    ensures |r| == |s|
    ensures forall i :: 0 <= i < |s| ==> r[i] == LowerChar(s[i])
  {
    if s == [] then [] else [LowerChar(s[0])] + Lower(s[1..])
  }

  /** Folding distributes over concatenation. */
  lemma LowerAppend(a: string, b: string)
    ensures Lower(a + b) == Lower(a) + Lower(b)
  {
    assert forall i :: 0 <= i < |a + b| ==> Lower(a + b)[i] == (Lower(a) + Lower(b))[i];
  }

  /** Folding twice is folding once. */
  lemma LowerIdempotent(s: string)
    ensures Lower(Lower(s)) == Lower(s)
  {
    assert forall i :: 0 <= i < |s| ==> Lower(Lower(s))[i] == Lower(s)[i];
  }

  /** Folding leaves the newline character where it was and adds none. */
  lemma LowerNewlines(s: string)
    ensures forall i :: 0 <= i < |s| ==> (Lower(s)[i] == '\n' <==> s[i] == '\n')
  {
  }

  /** Reference meaning of Python's `needle in hay`: some window of `hay` is `needle`. */
  ghost predicate Occurs(hay: string, needle: string) {
    exists i :: MatchAt(hay, needle, i)
  }

  /** `needle` is the window of `hay` that starts at index `i`. */
  ghost predicate MatchAt(hay: string, needle: string, i: int) {
    0 <= i <= |hay| - |needle| && hay[i..i + |needle|] == needle
  }

  lemma OccursAt(hay: string, needle: string, i: int)
    requires MatchAt(hay, needle, i)
    ensures Occurs(hay, needle)
  {
  }

  /** An occurrence in the tail of `hay` is an occurrence in `hay`, and when
      `needle` is not a prefix of `hay` every occurrence is in the tail. */
  lemma OccursInTail(hay: string, needle: string)
    requires |hay| >= |needle| && hay[..|needle|] != needle
    ensures Occurs(hay, needle) <==> Occurs(hay[1..], needle)
  {
    var t := hay[1..];
    if Occurs(t, needle) {
      var i :| MatchAt(t, needle, i);
      assert hay[i + 1..i + 1 + |needle|] == t[i..i + |needle|];
      OccursAt(hay, needle, i + 1);
    }
    if Occurs(hay, needle) {
      var i :| MatchAt(hay, needle, i);
      assert i != 0 by { assert hay[0..|needle|] == hay[..|needle|]; }
      assert t[i - 1..i - 1 + |needle|] == hay[i..i + |needle|];
      OccursAt(t, needle, i - 1);
    }
  }

  /** Executable substring test, scanning `hay` from the left. */
  function Contains(hay: string, needle: string): (b: bool)
    ensures b <==> Occurs(hay, needle)
    decreases |hay|
  {
    if |needle| > |hay| then false
    else if hay[..|needle|] == needle then
      OccursAt(hay, needle, 0);
      true
    else
      OccursInTail(hay, needle);
      Contains(hay[1..], needle)
  }

  /** An occurrence survives putting text on either side. */
  lemma OccursWithin(a: string, b: string, c: string, needle: string)
    requires Occurs(b, needle)
    ensures Occurs(a + b + c, needle)
  {
    var i :| MatchAt(b, needle, i);
    assert (a + b + c)[|a| + i..|a| + i + |needle|] == b[i..i + |needle|];
    OccursAt(a + b + c, needle, |a| + i);
  }

  /** Characters Python's `str.isspace` accepts, restricted to ASCII:
      space, tab, line feed, vertical tab, form feed, carriage return and the
      four separators 0x1C-0x1F. */
  predicate IsSpace(c: char) {
    c == ' ' || 9 <= c as int <= 13 || 28 <= c as int <= 31
  }

  /** `s.lstrip()`: the longest suffix of `s` that does not start with whitespace. */
  function StripStart(s: string): (r: string)
    ensures |r| <= |s| && r == s[|s| - |r|..]
    ensures forall i :: 0 <= i < |s| - |r| ==> IsSpace(s[i])
    ensures r == [] || !IsSpace(r[0])
  {
    if s != [] && IsSpace(s[0]) then StripStart(s[1..]) else s
  }

  /** `s.rstrip()`: the longest prefix of `s` that does not end with whitespace. */
  function StripEnd(s: string): (r: string)
    ensures |r| <= |s| && r == s[..|r|]
    ensures forall i :: |r| <= i < |s| ==> IsSpace(s[i])
    ensures r == [] || !IsSpace(r[|r| - 1])
  {
    if s != [] && IsSpace(s[|s| - 1]) then StripEnd(s[..|s| - 1]) else s
  }

  /** `s.strip()`: no whitespace is left at either end. */
  function Strip(s: string): (r: string)
    ensures |r| <= |s|
    ensures r == [] || (!IsSpace(r[0]) && !IsSpace(r[|r| - 1]))
  {
    StripEnd(StripStart(s))
  }

  /** `r` is the window of `s` starting at `a`, and everything outside that
      window is whitespace. */
  ghost predicate StrippedAt(s: string, r: string, a: int) {
    && 0 <= a <= |s| - |r|
    && r == s[a..a + |r|]
    && (forall i :: 0 <= i < a ==> IsSpace(s[i]))
    && (forall i :: a + |r| <= i < |s| ==> IsSpace(s[i]))
  }

  /** Where the stripped text sits: after the whitespace `lstrip` removes. */
  lemma StripAt(s: string)
    ensures StrippedAt(s, Strip(s), |s| - |StripStart(s)|)
  {
    var front := StripStart(s);
    var r := StripEnd(front);
    var start := |s| - |front|;
    assert r == s[start..start + |r|] by {
      assert front == s[start..] && r == front[..|r|];
    }
    forall i | start + |r| <= i < |s|
      ensures IsSpace(s[i])
    {
      assert s[i] == front[i - start];
    }
    assert StrippedAt(s, r, start);
    assert Strip(s) == r;
  }

  /** The stripped text is a window of the original, with everything cut away
      on either side being whitespace; it is empty exactly when the original
      is all whitespace. */
  lemma StripWindow(s: string)
    ensures exists a :: StrippedAt(s, Strip(s), a)
    ensures Occurs(s, Strip(s))
    ensures (forall i :: 0 <= i < |s| ==> IsSpace(s[i])) <==> Strip(s) == []
  {
    var r := Strip(s);
    var start := |s| - |StripStart(s)|;
    StripAt(s);
    OccursAt(s, r, start);
    if r != [] {
      assert s[start] == r[0] && !IsSpace(s[start]);
    }
  }

  /** Stripping a stripped string changes nothing. */
  lemma StripIdempotent(s: string)
    ensures Strip(Strip(s)) == Strip(s)
  {
    var r := Strip(s);
    assert StripStart(r) == r;
    assert StripEnd(r) == r;
  }

  /** The text assembled by `for page in docs: text += page + "\n"`. */
  function Joined(pages: seq<string>): (text: string)
  {
    if pages == [] then "" else Joined(pages[..|pages| - 1]) + pages[|pages| - 1] + "\n"
  }

  /** Sum over the pages of (page length + 1). */
  function TotalSize(pages: seq<string>): nat
  {
    if pages == [] then 0 else |pages[0]| + 1 + TotalSize(pages[1..])
  }

  /** Joining a concatenation of page lists concatenates the joined texts. */
  lemma {:induction false} JoinedAppend(ps: seq<string>, qs: seq<string>)
    ensures Joined(ps + qs) == Joined(ps) + Joined(qs)
    decreases |qs|
  {
    if qs == [] {
      assert ps + qs == ps;
    } else {
      var init := qs[..|qs| - 1];
      assert (ps + qs)[..|ps + qs| - 1] == ps + init;
      JoinedAppend(ps, init);
    }
  }

  /** The joined text is as long as the pages plus one newline per page. */
  lemma {:induction false} JoinedLength(pages: seq<string>)
    ensures |Joined(pages)| == TotalSize(pages)
    decreases |pages|
  {
    if pages != [] {
      assert pages == [pages[0]] + pages[1..];
      JoinedAppend([pages[0]], pages[1..]);
      assert Joined([pages[0]]) == pages[0] + "\n";
      JoinedLength(pages[1..]);
    }
  }

  /** The joined text of at least one page ends in the newline appended after the last page. */
  lemma JoinedEndsInNewline(pages: seq<string>)
    requires pages != []
    ensures |Joined(pages)| > 0 && Joined(pages)[|Joined(pages)| - 1] == '\n'
  {
  }

  /** Folding the joined text is joining the folded pages. */
  lemma {:induction false} LowerJoined(pages: seq<string>)
    ensures Lower(Joined(pages)) == Joined(seq(|pages|, k requires 0 <= k < |pages| => Lower(pages[k])))
    decreases |pages|
  {
    var lowered := seq(|pages|, k requires 0 <= k < |pages| => Lower(pages[k]));
    if pages != [] {
      var init := pages[..|pages| - 1];
      var last := pages[|pages| - 1];
      LowerJoined(init);
      assert lowered[..|lowered| - 1] == seq(|init|, k requires 0 <= k < |init| => Lower(init[k]));
      LowerAppend(Joined(init) + last, "\n");
      LowerAppend(Joined(init), last);
    }
  }

  /** A window matching a needle without newlines lies wholly before or wholly
      after any newline of the text. */
  lemma WindowAvoidsNewline(text: string, needle: string, i: int, p: int)
    requires MatchAt(text, needle, i) && '\n' !in needle
    requires 0 <= p < |text| && text[p] == '\n'
    ensures p < i || i + |needle| <= p
  {
    assert forall j :: 0 <= j < |needle| ==> needle[j] == text[i + j];
  }

  /** An occurrence in any page is an occurrence in the joined text. */
  lemma {:induction false} OccursInJoinedIfInPage(pages: seq<string>, needle: string, k: int)
    requires 0 <= k < |pages| && Occurs(pages[k], needle)
    ensures Occurs(Joined(pages), needle)
    decreases |pages|
  {
    var init := pages[..|pages| - 1];
    var last := pages[|pages| - 1];
    if k < |init| {
      OccursInJoinedIfInPage(init, needle, k);
      OccursWithin([], Joined(init), last + "\n", needle);
      assert [] + Joined(init) + (last + "\n") == Joined(pages);
    } else {
      OccursWithin(Joined(init), last, "\n", needle);
    }
  }

  /** An occurrence of a needle without newlines in the joined text lies inside one page. */
  lemma {:induction false} OccursInJoinedOnlyInPage(pages: seq<string>, needle: string) returns (k: int)
    requires |needle| > 0 && '\n' !in needle
    requires Occurs(Joined(pages), needle)
    ensures 0 <= k < |pages| && Occurs(pages[k], needle)
    decreases |pages|
  {
    var init := pages[..|pages| - 1];
    var last := pages[|pages| - 1];
    var a := Joined(init);
    var text := Joined(pages);
    var m := |needle|;
    var i :| MatchAt(text, needle, i);
    if init != [] {
      JoinedEndsInNewline(init);
      WindowAvoidsNewline(text, needle, i, |a| - 1);
    }
    WindowAvoidsNewline(text, needle, i, |a| + |last|);
    if i + m <= |a| {
      assert a[i..i + m] == text[i..i + m];
      OccursAt(a, needle, i);
      k := OccursInJoinedOnlyInPage(init, needle);
    } else {
      assert last[i - |a|..i - |a| + m] == text[i..i + m];
      OccursAt(last, needle, i - |a|);
      k := |pages| - 1;
    }
  }

  /** A needle without newlines occurs in the joined text exactly when it occurs
      in one of the pages: the newline after each page keeps every occurrence
      inside a single page. */
  lemma OccursInJoined(pages: seq<string>, needle: string)
    requires |needle| > 0 && '\n' !in needle
    ensures Occurs(Joined(pages), needle) <==> exists k :: 0 <= k < |pages| && Occurs(pages[k], needle)
  {
    if Occurs(Joined(pages), needle) {
      var k := OccursInJoinedOnlyInPage(pages, needle);
    }
    if exists k :: 0 <= k < |pages| && Occurs(pages[k], needle) {
      var k :| 0 <= k < |pages| && Occurs(pages[k], needle);
      OccursInJoinedIfInPage(pages, needle, k);
    }
  }
}
