/** The document tools of tools.py: the reader that collapses blank lines in
    each page before joining the pages, and two placeholder analysers. */
module Tools {
  import opened Text

  /** Python's `s.replace(pat, rep)`: every non-overlapping occurrence of `pat`,
      found scanning from the left, replaced by `rep`. */
  function ReplaceAll(s: string, pat: string, rep: string): (r: string)
    requires pat != []
    ensures !Occurs(s, pat) ==> r == s
    ensures |rep| <= |pat| ==> |r| <= |s|
    ensures |rep| < |pat| && Occurs(s, pat) ==> |r| < |s|
    decreases |s|
  {
    if |s| < |pat| then
      s
    else if s[..|pat|] == pat then
      OccursAt(s, pat, 0);
      rep + ReplaceAll(s[|pat|..], pat, rep)
    else
      OccursInTail(s, pat);
      [s[0]] + ReplaceAll(s[1..], pat, rep)
  }

  /** Put `c` in front of `t`, unless both are newlines: the step by which a
      run of newlines shrinks to one. */
  function Push(c: char, t: string): string {
    if c == '\n' && t != [] && t[0] == '\n' then t else [c] + t
  }

  /** Reference meaning of the blank-line cleaning: every maximal run of
      newlines in `s` becomes a single newline, all else is kept in order. */
  function Squeeze(s: string): (r: string)
    ensures |r| <= |s|
    ensures s != [] ==> r != [] && r[0] == s[0]
  {
    if s == [] then [] else Push(s[0], Squeeze(s[1..]))
  }

  /** No two newlines next to each other. */
  predicate NoDoubleNewline(s: string) {
    forall i :: 0 <= i < |s| - 1 ==> !(s[i] == '\n' && s[i + 1] == '\n')
  }

  /** `"\n\n" in s` is the negation of NoDoubleNewline. */
  lemma DoubleNewlineOccurs(s: string)
    ensures Occurs(s, "\n\n") <==> !NoDoubleNewline(s)
  {
    if !NoDoubleNewline(s) {
      var i :| 0 <= i < |s| - 1 && s[i] == '\n' && s[i + 1] == '\n';
      assert s[i..i + 2] == "\n\n";
      OccursAt(s, "\n\n", i);
    }
    if Occurs(s, "\n\n") {
      var i :| MatchAt(s, "\n\n", i);
      assert s[i] == s[i..i + 2][0] && s[i + 1] == s[i..i + 2][1];
    }
  }

  /** The squeezed text has no blank line left. */
  lemma {:induction false} SqueezeNoDoubleNewline(s: string)
    ensures NoDoubleNewline(Squeeze(s))
    decreases |s|
  {
    if s != [] {
      SqueezeNoDoubleNewline(s[1..]);
    }
  }

  /** Text without a blank line is its own squeeze, so squeezing is idempotent. */
  lemma {:induction false} SqueezeFixed(s: string)
    requires NoDoubleNewline(s)
    ensures Squeeze(s) == s
    decreases |s|
  {
    if s != [] {
      SqueezeFixed(s[1..]);
      assert [s[0]] + s[1..] == s;
    }
  }

  lemma SqueezeIdempotent(s: string)
    ensures Squeeze(Squeeze(s)) == Squeeze(s)
  {
    SqueezeNoDoubleNewline(s);
    SqueezeFixed(Squeeze(s));
  }

  /** The characters of `s` other than newlines, in order. */
  function NonNewlines(s: string): string {
    if s == [] then [] else (if s[0] == '\n' then [] else [s[0]]) + NonNewlines(s[1..])
  }

  /** Second, position-wise reading of the cleaning: a character is kept
      unless it is a newline and the next character is a newline too, so each
      maximal run of newlines leaves only its last one. */
  function KeepSingle(s: string): string {
    if s == [] then []
    else (if |s| > 1 && s[0] == '\n' && s[1] == '\n' then [] else [s[0]]) + KeepSingle(s[1..])
  }

  /** The two readings of the cleaning agree. */
  lemma {:induction false} SqueezeIsKeepSingle(s: string)
    ensures Squeeze(s) == KeepSingle(s)
    decreases |s|
  {
    if s != [] {
      SqueezeIsKeepSingle(s[1..]);
    }
  }

  /** Squeezing removes newlines only. */
  lemma {:induction false} SqueezeKeepsText(s: string)
    ensures NonNewlines(Squeeze(s)) == NonNewlines(s)
    decreases |s|
  {
    if s != [] {
      SqueezeKeepsText(s[1..]);
      var t := Squeeze(s[1..]);
      if !(s[0] == '\n' && t != [] && t[0] == '\n') {
        assert ([s[0]] + t)[1..] == t;
      }
    }
  }

  /** Squeezing keeps the last character, so a text that ends in a newline
      still ends in one. */
  lemma {:induction false} SqueezeKeepsLast(s: string)
    requires s != []
    ensures Squeeze(s) != [] && Squeeze(s)[|Squeeze(s)| - 1] == s[|s| - 1]
    decreases |s|
  {
    if |s| > 1 {
      SqueezeKeepsLast(s[1..]);
    }
  }

  /** One `replace("\n\n", "\n")` pass leaves the squeezed text unchanged:
      the loop invariant of the cleaning loop. */
  lemma {:induction false} ReplacePreservesSqueeze(s: string)
    ensures Squeeze(ReplaceAll(s, "\n\n", "\n")) == Squeeze(s)
    decreases |s|
  {
    if |s| < 2 {
    } else if s[..2] == "\n\n" {
      var t := s[2..];
      ReplacePreservesSqueeze(t);
      assert s[0] == '\n' && s[1] == '\n';
      assert s[1..][1..] == t;
      assert ReplaceAll(s, "\n\n", "\n") == "\n" + ReplaceAll(t, "\n\n", "\n");
      assert ("\n" + ReplaceAll(t, "\n\n", "\n"))[1..] == ReplaceAll(t, "\n\n", "\n");
    } else {
      ReplacePreservesSqueeze(s[1..]);
      assert ([s[0]] + ReplaceAll(s[1..], "\n\n", "\n"))[1..] == ReplaceAll(s[1..], "\n\n", "\n");
    }
  }

  /** The inner loop of `FinancialDocumentTool._run`: replace "\n\n" by "\n"
      until no blank line is left. Each pass shortens the text, so the loop
      ends, and the result is the squeezed page. */
  method CollapseBlankLines(content: string) returns (cleaned: string)
    ensures cleaned == Squeeze(content)
    ensures NoDoubleNewline(cleaned)
  {
    cleaned := content;
    while Contains(cleaned, "\n\n")
      invariant Squeeze(cleaned) == Squeeze(content)
      decreases |cleaned|
    {
      ReplacePreservesSqueeze(cleaned);
      cleaned := ReplaceAll(cleaned, "\n\n", "\n");
    }
    DoubleNewlineOccurs(cleaned);
    SqueezeFixed(cleaned);
  }

  /** The pages after cleaning: one per page, each free of blank lines, each
      keeping its page's text and dropping exactly the newlines that another
      newline follows. */
  function SqueezeAll(pages: seq<string>): (cleaned: seq<string>)
    ensures |cleaned| == |pages|
    ensures forall k :: 0 <= k < |pages| ==>
              && NoDoubleNewline(cleaned[k])
              && NonNewlines(cleaned[k]) == NonNewlines(pages[k])
              && cleaned[k] == KeepSingle(pages[k])
  {
    var cleaned := seq(|pages|, k requires 0 <= k < |pages| => Squeeze(pages[k]));
    CleanedPages(pages, cleaned);
    cleaned
  }

  lemma CleanedPages(pages: seq<string>, cleaned: seq<string>)
    requires |cleaned| == |pages|
    requires forall k :: 0 <= k < |pages| ==> cleaned[k] == Squeeze(pages[k])
    ensures forall k :: 0 <= k < |pages| ==>
              && NoDoubleNewline(cleaned[k])
              && NonNewlines(cleaned[k]) == NonNewlines(pages[k])
              && cleaned[k] == KeepSingle(pages[k])
  {
    forall k | 0 <= k < |pages|
      ensures NoDoubleNewline(cleaned[k])
      ensures NonNewlines(cleaned[k]) == NonNewlines(pages[k])
      ensures cleaned[k] == KeepSingle(pages[k])
    {
      SqueezeNoDoubleNewline(pages[k]);
      SqueezeKeepsText(pages[k]);
      SqueezeIsKeepSingle(pages[k]);
    }
  }

  /** `FinancialDocumentTool._run` once the PDF loader has produced `pages`:
      each page is cleaned, then followed by a newline. */
  method ReadFinancialDocument(pages: seq<string>) returns (report: string)
    ensures report == Joined(SqueezeAll(pages))
  {
    report := "";
    for k := 0 to |pages|
      invariant report == Joined(SqueezeAll(pages)[..k])
    {
      var content := CollapseBlankLines(pages[k]);
      assert SqueezeAll(pages)[..k + 1][..k] == SqueezeAll(pages)[..k];
      report := report + content + "\n";
    }
    assert SqueezeAll(pages)[..|pages|] == SqueezeAll(pages);
  }

  /** The cleaning is per page only: a page that ends in a newline is followed
      by the separator newline, which makes a blank line in the report. */
  lemma BlankLineAcrossPages()
    ensures !NoDoubleNewline(Joined(SqueezeAll(["total\n"])))
  {
    var cleaned := SqueezeAll(["total\n"]);
    SqueezeKeepsLast("total\n");
    assert Joined(cleaned) == Joined([]) + cleaned[0] + "\n";
    var n := |cleaned[0]|;
    assert Joined(cleaned)[n - 1] == '\n' && Joined(cleaned)[n] == '\n';
  }

  /** When no page is empty and no page starts or ends with a newline, the
      whole report is free of blank lines. */
  lemma {:induction false} ReportWithoutBlankLines(pages: seq<string>)
    requires forall k :: 0 <= k < |pages| ==> pages[k] != [] && pages[k][0] != '\n' && pages[k][|pages[k]| - 1] != '\n'
    ensures NoDoubleNewline(Joined(SqueezeAll(pages)))
    decreases |pages|
  {
    if pages == [] {
      return;
    }
    var init := pages[..|pages| - 1];
    var page := Squeeze(pages[|pages| - 1]);
    ReportWithoutBlankLines(init);
    assert SqueezeAll(pages)[..|pages| - 1] == SqueezeAll(init);
    var a := Joined(SqueezeAll(init));
    assert Joined(SqueezeAll(pages)) == a + page + "\n";
    SqueezeNoDoubleNewline(pages[|pages| - 1]);
    SqueezeKeepsLast(pages[|pages| - 1]);
    var text := a + page + "\n";
    forall i | 0 <= i < |text| - 1
      ensures !(text[i] == '\n' && text[i + 1] == '\n')
    {
      if i < |a| - 1 {
        assert text[i] == a[i] && text[i + 1] == a[i + 1];
      } else if i == |a| - 1 {
        assert text[i + 1] == page[0];
      } else if i < |a| + |page| - 1 {
        assert text[i] == page[i - |a|] && text[i + 1] == page[i - |a| + 1];
      } else {
        assert text[i] == page[|page| - 1];
      }
    }
  }

  const INVESTMENT_DONE := "Investment analysis completed based on provided financial data."
  const RISK_DONE := "Risk assessment completed based on provided financial data."

  /** `InvestmentTool._run`: a fixed acknowledgement, whatever the data. */
  function InvestmentAnalysis(financialDocumentData: string): (r: string)
    ensures r == INVESTMENT_DONE
  {
    INVESTMENT_DONE
  }

  /** `RiskTool._run`: a fixed acknowledgement, whatever the data. */
  function RiskAssessment(financialDocumentData: string): (r: string)
    ensures r == RISK_DONE
  {
    RISK_DONE
  }

  /** Neither placeholder tool reads its input. */
  lemma PlaceholderToolsIgnoreInput(data1: string, data2: string)
    ensures InvestmentAnalysis(data1) == InvestmentAnalysis(data2) == INVESTMENT_DONE
    ensures RiskAssessment(data1) == RiskAssessment(data2) == RISK_DONE
  {
  }
}
