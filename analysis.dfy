/** The keyword scan that answers every analysis request (`run_crew` in main.py):
    the extracted pages are joined, folded to lower case and searched for
    "revenue", "profit" and "risk"; the answer is a fixed five-key mapping. */
module Analysis {
  import opened Text

  const REVENUE_FOUND := "Revenue data found"
  const REVENUE_MISSING := "Revenue not clearly mentioned"
  const PROFIT_FOUND := "Profit data found"
  const PROFIT_MISSING := "Profit not clearly mentioned"
  const RATIOS_PLACEHOLDER := "Basic ratio analysis placeholder"
  const RISK_FOUND := "Risk factors identified"
  const RISK_MISSING := "No explicit risk section found"
  const INVESTMENT_ADVICE := "Based on available data, conduct deeper quantitative analysis before investing."

  /** The mapping `run_crew` returns: one field per key, in the source's key order
      ("Revenue Summary", "Profit/Loss Overview", "Key Financial Ratios",
      "Identified Risk Factors", "Investment Considerations"). */
  datatype Findings = Findings(
    revenueSummary: string,
    profitLossOverview: string,
    keyFinancialRatios: string,
    identifiedRiskFactors: string,
    investmentConsiderations: string)

  /** Every value is drawn from the fixed vocabulary above. */
  predicate InVocabulary(f: Findings) {
    && (f.revenueSummary == REVENUE_FOUND || f.revenueSummary == REVENUE_MISSING)
    && (f.profitLossOverview == PROFIT_FOUND || f.profitLossOverview == PROFIT_MISSING)
    && f.keyFinancialRatios == RATIOS_PLACEHOLDER
    && (f.identifiedRiskFactors == RISK_FOUND || f.identifiedRiskFactors == RISK_MISSING)
    && f.investmentConsiderations == INVESTMENT_ADVICE
  }

  /** One keyword finding: `found if keyword in text.lower() else missing`.
      It is `found` exactly when the keyword occurs, in any letter case,
      anywhere in the text, and `missing` otherwise. */
  function Finding(text: string, keyword: string, found: string, missing: string): (r: string)
    requires found != missing
    ensures r == found || r == missing
    ensures r == found <==> Occurs(Lower(text), keyword)
  {
    if Contains(Lower(text), keyword) then found else missing
  }

  /** The findings for a full text: three keyword findings and two constants. */
  function Derive(fullText: string): (f: Findings)
    ensures InVocabulary(f)
    ensures f.revenueSummary == REVENUE_FOUND <==> Occurs(Lower(fullText), "revenue")
    ensures f.profitLossOverview == PROFIT_FOUND <==> Occurs(Lower(fullText), "profit")
    ensures f.identifiedRiskFactors == RISK_FOUND <==> Occurs(Lower(fullText), "risk")
  {
    Findings(
      Finding(fullText, "revenue", REVENUE_FOUND, REVENUE_MISSING),
      Finding(fullText, "profit", PROFIT_FOUND, PROFIT_MISSING),
      RATIOS_PLACEHOLDER,
      Finding(fullText, "risk", RISK_FOUND, RISK_MISSING),
      INVESTMENT_ADVICE)
  }

  /** `run_crew(query, file_path)` once the PDF loader has produced `pages`:
      the loop assembles the full text, then the findings are derived from it.
      The query is accepted and never read. */
  method RunCrew(query: string, pages: seq<string>) returns (f: Findings)
    ensures f == Derive(Joined(pages))
  {
    var fullText := "";
    for k := 0 to |pages|
      invariant fullText == Joined(pages[..k])
    {
      assert pages[..k + 1][..k] == pages[..k];
      fullText := fullText + pages[k] + "\n";
    }
    assert pages[..|pages|] == pages;
    f := Derive(fullText);
  }

  /** A keyword finding read page by page: it says "found" exactly when some
      page holds the keyword, since no keyword can straddle the newline
      appended after each page. */
  lemma {:induction false} FindingFromPages(pages: seq<string>, keyword: string, found: string, missing: string)
    requires found != missing && |keyword| > 0 && '\n' !in keyword
    ensures Finding(Joined(pages), keyword, found, missing) == found
            <==> exists k :: 0 <= k < |pages| && Occurs(Lower(pages[k]), keyword)
  {
    var lowered := seq(|pages|, k requires 0 <= k < |pages| => Lower(pages[k]));
    LowerJoined(pages);
    OccursInJoined(lowered, keyword);
    assert forall k :: 0 <= k < |pages| ==> lowered[k] == Lower(pages[k]);
  }

  /** Two of the five values never depend on the document. */
  lemma ConstantFindings(text1: string, text2: string)
    ensures Derive(text1).keyFinancialRatios == Derive(text2).keyFinancialRatios == RATIOS_PLACEHOLDER
    ensures Derive(text1).investmentConsiderations == Derive(text2).investmentConsiderations == INVESTMENT_ADVICE
  {
  }

  /** Python's `repr` of a string that holds no quote, backslash or
      unprintable character. */
  function Quoted(s: string): string {
    "'" + s + "'"
  }

  /** One `key: value` pair as a dict prints it. */
  function Entry(key: string, value: string): string {
    Quoted(key) + ": " + Quoted(value)
  }

  /** The pairs of a dict as it prints them, separated by ", ". */
  function Items(keys: seq<string>, values: seq<string>): string
    requires |keys| == |values|
  {
    if keys == [] then ""
    else if |keys| == 1 then Entry(keys[0], values[0])
    else Entry(keys[0], values[0]) + ", " + Items(keys[1..], values[1..])
  }

  /** The keys of the `run_crew` mapping, in insertion order. */
  const FINDING_KEYS: seq<string> := ["Revenue Summary", "Profit/Loss Overview",
    "Key Financial Ratios", "Identified Risk Factors", "Investment Considerations"]

  /** The values of the mapping, in key order. */
  function Values(f: Findings): (vs: seq<string>)
    ensures |vs| == |FINDING_KEYS|
  {
    [f.revenueSummary, f.profitLossOverview, f.keyFinancialRatios,
     f.identifiedRiskFactors, f.investmentConsiderations]
  }

  /** `str(response)`: the mapping as Python prints a dict. */
  function Render(f: Findings): (r: string)
    ensures |r| >= 2 && r[0] == '{' && r[|r| - 1] == '}'
  {
    "{" + Items(FINDING_KEYS, Values(f)) + "}"
  }

  /** The text holds no single quote. */
  predicate NoQuote(s: string) {
    forall i :: 0 <= i < |s| ==> s[i] != '\''
  }

  /** No value before the last holds a single quote, so each of them ends at
      the first quote that follows its start. */
  predicate QuoteFree(f: Findings) {
    && NoQuote(f.revenueSummary)
    && NoQuote(f.profitLossOverview)
    && NoQuote(f.keyFinancialRatios)
    && NoQuote(f.identifiedRiskFactors)
  }

  /** The fixed vocabulary prints without quoting trouble. */
  lemma VocabularyQuoteFree(f: Findings)
    requires InVocabulary(f)
    ensures QuoteFree(f)
  {
    VocabularyHasNoQuote();
  }

  lemma VocabularyHasNoQuote()
    ensures NoQuote(REVENUE_FOUND) && NoQuote(REVENUE_MISSING)
    ensures NoQuote(PROFIT_FOUND) && NoQuote(PROFIT_MISSING)
    ensures NoQuote(RATIOS_PLACEHOLDER)
    ensures NoQuote(RISK_FOUND) && NoQuote(RISK_MISSING)
  {
  }

  /** Equal texts with equal prefixes have equal remainders. */
  lemma PrefixCancel(p: string, x: string, y: string)
    requires p + x == p + y
    ensures x == y
  {
    assert x == (p + x)[|p|..];
    assert y == (p + y)[|p|..];
  }

  /** A quote that ends a quote-free part splits a text in one way only. */
  lemma QuoteSplit(a: string, b: string, c: string, d: string)
    requires NoQuote(a) && NoQuote(c)
    requires a + "'" + b == c + "'" + d
    ensures a == c && b == d
  {
    var s := a + "'" + b;
    assert forall i :: 0 <= i < |a| ==> s[i] == a[i];
    assert forall i :: 0 <= i < |c| ==> s[i] == c[i];
    assert s[|a|] == '\'' && s[|c|] == '\'';
    assert |a| == |c|;
    assert a == s[..|a|] && c == s[..|c|];
    assert b == s[|a| + 1..] && d == (c + "'" + d)[|c| + 1..];
  }

  /** An entry is its key's part, then the value, then a closing quote. */
  lemma EntryShape(key: string, value: string, rest: string)
    ensures Entry(key, value) + rest == (Quoted(key) + ": '") + (value + "'" + rest)
  {
  }

  /** Two entries under the same key, each followed by more text, have the
      same quote-free value and the same remainder. */
  lemma EntryCancel(key: string, v: string, w: string, restV: string, restW: string)
    requires NoQuote(v) && NoQuote(w)
    requires Entry(key, v) + restV == Entry(key, w) + restW
    ensures v == w && restV == restW
  {
    EntryShape(key, v, restV);
    EntryShape(key, w, restW);
    PrefixCancel(Quoted(key) + ": '", v + "'" + restV, w + "'" + restW);
    QuoteSplit(v, restV, w, restW);
  }

  /** Two final entries under the same key have the same value. */
  lemma LastEntryCancel(key: string, v: string, w: string)
    requires Entry(key, v) == Entry(key, w)
    ensures v == w
  {
    EntryShape(key, v, "");
    EntryShape(key, w, "");
    PrefixCancel(Quoted(key) + ": '", v + "'" + "", w + "'" + "");
    assert v == (v + "'" + "")[..|v|];
    assert w == (w + "'" + "")[..|w|];
  }

  /** With the keys fixed, the printed pairs determine the values, provided
      no value but the last holds a quote. */
  lemma {:induction false} ItemsInjective(keys: seq<string>, vs: seq<string>, ws: seq<string>)
    requires |keys| == |vs| == |ws|
    requires forall i :: 0 <= i < |vs| - 1 ==> NoQuote(vs[i]) && NoQuote(ws[i])
    requires Items(keys, vs) == Items(keys, ws)
    ensures vs == ws
    decreases |keys|
  {
    if keys == [] {
      return;
    }
    if |keys| == 1 {
      LastEntryCancel(keys[0], vs[0], ws[0]);
      assert vs == [vs[0]] && ws == [ws[0]];
      return;
    }
    var restV := ", " + Items(keys[1..], vs[1..]);
    var restW := ", " + Items(keys[1..], ws[1..]);
    assert Items(keys, vs) == Entry(keys[0], vs[0]) + restV;
    assert Items(keys, ws) == Entry(keys[0], ws[0]) + restW;
    EntryCancel(keys[0], vs[0], ws[0], restV, restW);
    PrefixCancel(", ", Items(keys[1..], vs[1..]), Items(keys[1..], ws[1..]));
    ItemsInjective(keys[1..], vs[1..], ws[1..]);
    assert vs == [vs[0]] + vs[1..] && ws == [ws[0]] + ws[1..];
  }

  /** The stored result string determines the findings it was printed from. */
  lemma RenderInjective(f: Findings, g: Findings)
    requires QuoteFree(f) && QuoteFree(g)
    requires Render(f) == Render(g)
    ensures f == g
  {
    var vs, ws := Values(f), Values(g);
    assert Items(FINDING_KEYS, vs) == Render(f)[1..|Render(f)| - 1];
    assert Items(FINDING_KEYS, ws) == Render(g)[1..|Render(g)| - 1];
    ItemsInjective(FINDING_KEYS, vs, ws);
  }

  /** The `result` column of a stored record determines the findings of the
      request that wrote it. */
  lemma StoredResultDeterminesFindings(text1: string, text2: string)
    requires Render(Derive(text1)) == Render(Derive(text2))
    ensures Derive(text1) == Derive(text2)
  {
    VocabularyQuoteFree(Derive(text1));
    VocabularyQuoteFree(Derive(text2));
    RenderInjective(Derive(text1), Derive(text2));
  }
}
