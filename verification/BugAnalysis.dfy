/**
 * The bug-report aggregator: `analyze_issue` (mcp.py, bugout.py) and
 * `analyze_bug_reports` (qwen/prd_generator.py) as one definition with a
 * `Variant` switch, plus the five-entry truncation of `generate_prd`.
 */
module BugAnalysis {
  import opened Wrappers
  import opened PyStr
  import opened Seqs
  import opened Frequency

  /** A feature record: field name to JSON scalar; a missing key is absent from the map. */
  type Report = map<string, Value>

  const CategoricalFields: seq<string> :=
    ["software_version", "platform", "bug_behaviour", "crash", "user_frustration"]
  const TextFields: seq<string> :=
    ["technical_description", "input_data", "expected_behaviour"]

  /** The fallback used for every summary entry whose table is empty. */
  const Unknown: string := "unknown"

  /** `[r.get(field) for r in reports if field in r]`. */
  function FieldValues(reports: seq<Report>, field: string): (vs: seq<Value>)
    ensures |vs| <= |reports|
  {
    if reports == [] then []
    else
      var rest := FieldValues(reports[1..], field);
      if field in reports[0] then [reports[0][field]] + rest else rest
  }

  /** How many reports hold `field` with a value the variant counts (every present value for mcp.py). */
  function CountedReports(variant: Variant, reports: seq<Report>, field: string): nat {
    if reports == [] then 0
    else
      var here := if field in reports[0] && Counted(variant, reports[0][field]) then 1 else 0;
      here + CountedReports(variant, reports[1..], field)
  }

  lemma {:induction false} CountedStringsOfField(variant: Variant, reports: seq<Report>, field: string)
    ensures |CountedStrings(variant, FieldValues(reports, field))| == CountedReports(variant, reports, field)
  {
    if reports != [] {
      CountedStringsOfField(variant, reports[1..], field);
      var rest := FieldValues(reports[1..], field);
      if field in reports[0] {
        assert FieldValues(reports, field) == [reports[0][field]] + rest;
        assert ([reports[0][field]] + rest)[1..] == rest;
      }
    }
  }

  /**
   * The counts of a field's table add up to the number of reports that hold the field
   * (mcp.py, bugout.py) or that hold it with a truthy value (qwen/prd_generator.py);
   * every count is at least 1 and no value is listed twice.
   */
  lemma FieldTableSum(variant: Variant, reports: seq<Report>, field: string)
    ensures var t := ComputeFrequency(variant, FieldValues(reports, field));
      && SumCounts(t) == CountedReports(variant, reports, field)
      && (forall k :: 0 <= k < |t| ==> t[k].count >= 1)
      && Distinct(ValuesOf(t))
  {
    ComputeFrequencySpec(variant, FieldValues(reports, field));
    CountedStringsOfField(variant, reports, field);
  }

  // ---------------------------------------------------------------------------
  // Text aggregates
  // ---------------------------------------------------------------------------

  /**
   * The stripped text one report contributes to a free-text field. mcp.py and bugout.py
   * call `r.get(field, "").strip()`, which raises AttributeError for a present value that
   * is not a string; qwen/prd_generator.py reads such a value as "".
   */
  function TextOf(variant: Variant, r: Report, field: string): (t: Result<string>)
    ensures t.Ok? ==> Trimmed(t.value)
  {
    if field !in r then Ok("")
    else if r[field].VStr? then StripTrims(r[field].s); Ok(Strip(r[field].s))
    else if variant.StringifyAll? then Err("AttributeError")
    else Ok("")
  }

  /** Some report makes the variant raise on this field. */
  predicate TextFieldFails(variant: Variant, reports: seq<Report>, field: string) {
    && reports != []
    && (|| TextFieldFails(variant, reports[..|reports| - 1], field)
        || TextOf(variant, reports[|reports| - 1], field).Err?)
  }

  lemma {:induction false} TextFieldFailsIff(variant: Variant, reports: seq<Report>, field: string)
    ensures TextFieldFails(variant, reports, field) <==>
      exists k :: 0 <= k < |reports| && TextOf(variant, reports[k], field).Err?
  {
    if reports != [] {
      var init := reports[..|reports| - 1];
      TextFieldFailsIff(variant, init, field);
      if TextFieldFails(variant, init, field) {
        var k :| 0 <= k < |init| && TextOf(variant, init[k], field).Err?;
        assert reports[k] == init[k];
      }
      if exists k :: 0 <= k < |reports| && TextOf(variant, reports[k], field).Err? {
        var k :| 0 <= k < |reports| && TextOf(variant, reports[k], field).Err?;
        if k < |init| {
          assert init[k] == reports[k];
        }
      }
    }
  }

  /** The stripped texts of the reports, in report order ("" where nothing usable is present). */
  function TextCandidates(variant: Variant, reports: seq<Report>, field: string): (c: seq<string>)
    ensures |c| == |reports|
    ensures forall k :: 0 <= k < |c| ==> Trimmed(c[k])
  {
    if reports == [] then []
    else
      var t := TextOf(variant, reports[|reports| - 1], field);
      TextCandidates(variant, reports[..|reports| - 1], field) + [if t.Ok? then t.value else ""]
  }

  /** A failure in a prefix is a failure of the whole list. */
  lemma {:induction false} FailsExtend(variant: Variant, pre: seq<Report>, reports: seq<Report>, field: string)
    requires pre <= reports && TextFieldFails(variant, pre, field)
    ensures TextFieldFails(variant, reports, field)
    decreases |reports|
  {
    if |pre| < |reports| {
      var init := reports[..|reports| - 1];
      assert pre <= init;
      FailsExtend(variant, pre, init, field);
    } else {
      assert pre == reports;
    }
  }

  lemma TextCandidatesSnoc(variant: Variant, reports: seq<Report>, field: string, i: nat)
    requires i < |reports|
    ensures var t := TextOf(variant, reports[i], field);
      TextCandidates(variant, reports[..i + 1], field) ==
      TextCandidates(variant, reports[..i], field) + [if t.Ok? then t.value else ""]
  {
    assert reports[..i + 1][..i] == reports[..i];
  }

  /** The non-empty strings of `s`, in order. */
  function NonEmpty(s: seq<string>): (r: seq<string>)
    ensures forall k :: 0 <= k < |r| ==> r[k] != "" && r[k] in s
    ensures forall k :: 0 <= k < |s| && s[k] != "" ==> s[k] in r
  {
    if s == [] then []
    else
      var x := s[|s| - 1];
      assert s == s[..|s| - 1] + [x];
      NonEmpty(s[..|s| - 1]) + (if x != "" then [x] else [])
  }

  lemma NonEmptySnoc(s: seq<string>, x: string)
    ensures NonEmpty(s + [x]) == NonEmpty(s) + (if x != "" then [x] else [])
  {
    assert (s + [x])[..|s|] == s;
  }

  /** The `seen` list the analysers build for a free-text field. */
  function TextAggregate(variant: Variant, reports: seq<Report>, field: string): seq<string> {
    FirstSeen(NonEmpty(TextCandidates(variant, reports, field)))
  }

  /**
   * The loop `for r in reports: v = ...strip(); if v and v not in seen: seen.append(v)`,
   * which raises (Err) when mcp.py/bugout.py meet a non-string value.
   */
  method CollectText(variant: Variant, reports: seq<Report>, field: string) returns (r: Result<seq<string>>)
    ensures r.Err? <==> TextFieldFails(variant, reports, field)
    ensures r.Err? ==> r.error == "AttributeError"
    ensures r.Ok? ==> r.value == TextAggregate(variant, reports, field)
  {
    var seen: seq<string> := [];
    var i := 0;
    while i < |reports|
      invariant 0 <= i <= |reports|
      invariant !TextFieldFails(variant, reports[..i], field)
      invariant seen == TextAggregate(variant, reports[..i], field)
    {
      var t := TextOf(variant, reports[i], field);
      FailsSnoc(variant, reports, field, i);
      if t.Err? {
        FailsExtend(variant, reports[..i + 1], reports, field);
        return Err(t.error);
      }
      var v := t.value;
      TextAggregateSnoc(variant, reports, field, i);
      if v != "" && v !in seen {
        seen := seen + [v];
      }
      i := i + 1;
    }
    assert reports[..i] == reports;
    return Ok(seen);
  }

  lemma FailsSnoc(variant: Variant, reports: seq<Report>, field: string, i: nat)
    requires i < |reports|
    ensures TextFieldFails(variant, reports[..i + 1], field)
      <==> TextFieldFails(variant, reports[..i], field) || TextOf(variant, reports[i], field).Err?
  {
    assert reports[..i + 1][..i] == reports[..i];
  }

  /** One more report adds its stripped text to the aggregate when it is non-empty and new. */
  lemma TextAggregateSnoc(variant: Variant, reports: seq<Report>, field: string, i: nat)
    requires i < |reports| && TextOf(variant, reports[i], field).Ok?
    ensures var v, seen := TextOf(variant, reports[i], field).value, TextAggregate(variant, reports[..i], field);
      TextAggregate(variant, reports[..i + 1], field) == if v != "" && v !in seen then seen + [v] else seen
  {
    var v := TextOf(variant, reports[i], field).value;
    var cands := TextCandidates(variant, reports[..i], field);
    TextCandidatesSnoc(variant, reports, field, i);
    assert TextCandidates(variant, reports[..i + 1], field) == cands + [v];
    NonEmptySnoc(cands, v);
    if v != "" {
      assert NonEmpty(cands + [v]) == NonEmpty(cands) + [v];
      FirstSeenSnoc(NonEmpty(cands), v);
    } else {
      assert NonEmpty(cands + [v]) == NonEmpty(cands);
    }
  }

  /**
   * What a text aggregate holds: non-empty, already-trimmed strings, pairwise distinct,
   * exactly the non-empty stripped texts of the reports, in order of first appearance.
   */
  lemma TextAggregateSpec(variant: Variant, reports: seq<Report>, field: string)
    ensures var t := TextAggregate(variant, reports, field);
      var c := TextCandidates(variant, reports, field);
      && (forall k :: 0 <= k < |t| ==> t[k] != "" && Trimmed(t[k]) && t[k] in c)
      && (forall k :: 0 <= k < |c| && c[k] != "" ==> c[k] in t)
      && Distinct(t)
      && InFirstAppearanceOrder(NonEmpty(c), t)
  {
    FirstSeenOrder(NonEmpty(TextCandidates(variant, reports, field)));
  }

  // ---------------------------------------------------------------------------
  // Crash rate
  // ---------------------------------------------------------------------------

  /** `r.get("crash", False)`. */
  function CrashFlag(r: Report): Value {
    if "crash" in r then r["crash"] else VBool(false)
  }

  /** The numerator and denominator of the crash rate. */
  datatype CrashTally = CrashTally(crashes: nat, considered: nat)

  /**
   * mcp.py/bugout.py count truthy flags over all reports; qwen/prd_generator.py keeps
   * only bool-typed flags (a missing key reads as False, which is a bool).
   */
  function CrashCounts(variant: Variant, reports: seq<Report>): (c: CrashTally)
    ensures c.crashes <= c.considered <= |reports|
    ensures variant.StringifyAll? ==> c.considered == |reports|
  {
    if reports == [] then CrashTally(0, 0)
    else
      var rest := CrashCounts(variant, reports[1..]);
      var flag := CrashFlag(reports[0]);
      if variant.StringifyAll? then
        CrashTally(rest.crashes + (if Truthy(flag) then 1 else 0), rest.considered + 1)
      else if flag.VBool? then
        CrashTally(rest.crashes + (if flag.b then 1 else 0), rest.considered + 1)
      else rest
  }

  /** `sum(...) / len(...) * 100` before rounding, or 0 when nothing is considered. */
  function CrashRatePct(c: CrashTally): (pct: real)
    requires c.crashes <= c.considered
    ensures 0.0 <= pct <= 100.0
    ensures c.considered == 0 ==> pct == 0.0
    ensures pct == 100.0 <==> c.considered > 0 && c.crashes == c.considered
    ensures pct == 0.0 <==> c.crashes == 0
  {
    if c.considered == 0 then 0.0
    else
      var ratio := (c.crashes as real) / (c.considered as real);
      assert ratio <= 1.0 by {
        assert (c.crashes as real) <= (c.considered as real);
      }
      assert ratio == 1.0 ==> c.crashes == c.considered by {
        if ratio == 1.0 {
          assert (c.crashes as real) == ratio * (c.considered as real);
        }
      }
      ratio * 100.0
  }

  /** qwen/prd_generator.py only looks at bool-typed flags: none of them means a rate of 0. */
  lemma {:induction false} NoBoolCrashMeansZero(reports: seq<Report>)
    requires forall k :: 0 <= k < |reports| ==> !CrashFlag(reports[k]).VBool?
    ensures CrashCounts(DropFalsy, reports).considered == 0
  {
    if reports != [] {
      NoBoolCrashMeansZero(reports[1..]);
    }
  }

  // ---------------------------------------------------------------------------
  // Summary
  // ---------------------------------------------------------------------------

  /**
   * `max(d, key=d.get)` over the table turned into a dict: the index of the first entry
   * with the largest count (Python's `max` keeps the first of equal maxima).
   */
  function FirstMaxIndex(t: seq<Tally>): (i: nat)
    requires |t| > 0
    ensures i < |t|
    ensures forall j :: 0 <= j < |t| ==> t[j].count <= t[i].count
    ensures forall j :: 0 <= j < i ==> t[j].count < t[i].count
  {
    if |t| == 1 then 0
    else
      var k := FirstMaxIndex(t[..|t| - 1]);
      if t[|t| - 1].count > t[k].count then |t| - 1 else k
  }

  /** In a table sorted by descending count, the first maximum is the first entry. */
  lemma FirstMaxOfDescending(t: seq<Tally>)
    requires |t| > 0 && CountDescending(t)
    ensures FirstMaxIndex(t) == 0
  {
  }

  /** `dominant_frustration_level`. */
  function DominantLevel(t: seq<Tally>): string {
    if t == [] then Unknown else t[FirstMaxIndex(t)].value
  }

  /** `table[0][0] if table else "unknown"`. */
  function TopValue(t: seq<Tally>): string {
    if t == [] then Unknown else t[0].value
  }

  datatype Summary = Summary(
    issueId: string,
    totalReports: nat,
    crashRatePct: real,
    dominantFrustrationLevel: string,
    topAffectedPlatform: string,
    topAffectedVersion: string,
    primaryBugBehaviour: string)

  datatype Analysis = Analysis(
    frequencyDistributions: map<string, seq<Tally>>,
    textAggregates: map<string, seq<string>>,
    summary: Summary)

  function FieldTable(variant: Variant, reports: seq<Report>, field: string): seq<Tally> {
    ComputeFrequency(variant, FieldValues(reports, field))
  }

  function SummaryOf(variant: Variant, issueId: string, reports: seq<Report>): Summary {
    var crash := CrashCounts(variant, reports);
    Summary(
      issueId,
      |reports|,
      CrashRatePct(crash),
      DominantLevel(FieldTable(variant, reports, "user_frustration")),
      TopValue(FieldTable(variant, reports, "platform")),
      TopValue(FieldTable(variant, reports, "software_version")),
      TopValue(FieldTable(variant, reports, "bug_behaviour")))
  }

  /** `frequency_dist`: one table per field. */
  function FrequencyMap(variant: Variant, reports: seq<Report>, fields: seq<string>): map<string, seq<Tally>> {
    map f | f in fields :: FieldTable(variant, reports, f)
  }

  lemma FrequencyMapSnoc(variant: Variant, reports: seq<Report>, fields: seq<string>, i: nat)
    requires i < |fields|
    ensures FrequencyMap(variant, reports, fields[..i + 1])
      == FrequencyMap(variant, reports, fields[..i])[fields[i] := FieldTable(variant, reports, fields[i])]
  {
    assert fields[..i + 1] == fields[..i] + [fields[i]];
  }

  /** `text_agg`: one aggregate per field. */
  function TextMap(variant: Variant, reports: seq<Report>, fields: seq<string>): map<string, seq<string>> {
    map f | f in fields :: TextAggregate(variant, reports, f)
  }

  lemma TextMapSnoc(variant: Variant, reports: seq<Report>, fields: seq<string>, i: nat)
    requires i < |fields|
    ensures TextMap(variant, reports, fields[..i + 1])
      == TextMap(variant, reports, fields[..i])[fields[i] := TextAggregate(variant, reports, fields[i])]
  {
    assert fields[..i + 1] == fields[..i] + [fields[i]];
  }

  /** Some field of `fields` makes mcp.py/bugout.py raise. */
  predicate AnyTextFieldFails(variant: Variant, reports: seq<Report>, fields: seq<string>) {
    exists f :: f in fields && TextFieldFails(variant, reports, f)
  }

  lemma SomeFieldFails(variant: Variant, reports: seq<Report>, fields: seq<string>, i: nat)
    requires i < |fields| && TextFieldFails(variant, reports, fields[i])
    ensures AnyTextFieldFails(variant, reports, fields)
  {
  }

  lemma NoFieldFails(variant: Variant, reports: seq<Report>, fields: seq<string>)
    requires forall k :: 0 <= k < |fields| ==> !TextFieldFails(variant, reports, fields[k])
    ensures !AnyTextFieldFails(variant, reports, fields)
  {
  }

  /** The whole result of one analysis run, or the exception mcp.py/bugout.py raise. */
  function AnalysisOf(variant: Variant, issueId: string, reports: seq<Report>): Result<Analysis> {
    if AnyTextFieldFails(variant, reports, TextFields) then Err("AttributeError")
    else Ok(Analysis(FrequencyMap(variant, reports, CategoricalFields), TextMap(variant, reports, TextFields), SummaryOf(variant, issueId, reports)))
  }

  /** The loop over the categorical fields. */
  method CountFields(variant: Variant, reports: seq<Report>, fields: seq<string>) returns (frequency: map<string, seq<Tally>>)
    ensures frequency == FrequencyMap(variant, reports, fields)
  {
    frequency := map[];
    for i := 0 to |fields|
      invariant frequency == FrequencyMap(variant, reports, fields[..i])
    {
      var field := fields[i];
      var values := FieldValues(reports, field);
      FrequencyMapSnoc(variant, reports, fields, i);
      frequency := frequency[field := ComputeFrequency(variant, values)];
    }
    assert fields[..|fields|] == fields;
  }

  /** The loop over the free-text fields; it stops at the first field that raises. */
  method CollectTextFields(variant: Variant, reports: seq<Report>, fields: seq<string>)
    returns (r: Result<map<string, seq<string>>>)
    ensures r.Err? <==> AnyTextFieldFails(variant, reports, fields)
    ensures r.Err? ==> r.error == "AttributeError"
    ensures r.Ok? ==> r.value == TextMap(variant, reports, fields)
  {
    var text: map<string, seq<string>> := map[];
    for i := 0 to |fields|
      invariant text == TextMap(variant, reports, fields[..i])
      invariant forall k :: 0 <= k < i ==> !TextFieldFails(variant, reports, fields[k])
    {
      var field := fields[i];
      var seen := CollectText(variant, reports, field);
      if seen.Err? {
        SomeFieldFails(variant, reports, fields, i);
        return Err(seen.error);
      }
      TextMapSnoc(variant, reports, fields, i);
      text := text[field := seen.value];
    }
    assert fields[..|fields|] == fields;
    NoFieldFails(variant, reports, fields);
    return Ok(text);
  }

  /** The four tables the summary reads are in the frequency dict. */
  lemma SummaryTables(variant: Variant, reports: seq<Report>)
    ensures var frequency := FrequencyMap(variant, reports, CategoricalFields);
      && "user_frustration" in frequency && frequency["user_frustration"] == FieldTable(variant, reports, "user_frustration")
      && "platform" in frequency && frequency["platform"] == FieldTable(variant, reports, "platform")
      && "software_version" in frequency && frequency["software_version"] == FieldTable(variant, reports, "software_version")
      && "bug_behaviour" in frequency && frequency["bug_behaviour"] == FieldTable(variant, reports, "bug_behaviour")
  {
    assert CategoricalFields[1] == "platform" && CategoricalFields[0] == "software_version";
    assert CategoricalFields[2] == "bug_behaviour" && CategoricalFields[4] == "user_frustration";
  }

  /** `analyze_issue` / `analyze_bug_reports`: fills the two dicts field by field, then summarises. */
  method AnalyzeIssue(variant: Variant, issueId: string, reports: seq<Report>) returns (r: Result<Analysis>)
    ensures r == AnalysisOf(variant, issueId, reports)
  {
    var frequency := CountFields(variant, reports, CategoricalFields);
    var text := CollectTextFields(variant, reports, TextFields);
    if text.Err? {
      return Err(text.error);
    }
    SummaryTables(variant, reports);
    var summary := Summary(
      issueId,
      |reports|,
      CrashRatePct(CrashCounts(variant, reports)),
      DominantLevel(frequency["user_frustration"]),
      TopValue(frequency["platform"]),
      TopValue(frequency["software_version"]),
      TopValue(frequency["bug_behaviour"]));
    assert summary == SummaryOf(variant, issueId, reports);
    r := Ok(Analysis(frequency, text.value, summary));
  }

  /** qwen/prd_generator.py never raises; mcp.py/bugout.py raise exactly on a non-string text value. */
  lemma AnalysisFailsIff(variant: Variant, issueId: string, reports: seq<Report>)
    ensures AnalysisOf(variant, issueId, reports).Err? <==>
      variant.StringifyAll? &&
      exists k, f :: 0 <= k < |reports| && f in TextFields && f in reports[k] && !reports[k][f].VStr?
  {
    forall f | f in TextFields {
      TextFieldFailsIff(variant, reports, f);
    }
    if variant.StringifyAll? && AnalysisOf(variant, issueId, reports).Err? {
      var f :| f in TextFields && TextFieldFails(variant, reports, f);
      var k :| 0 <= k < |reports| && TextOf(variant, reports[k], f).Err?;
    }
  }

  /**
   * The first entry of a field's table is a most frequent counted value of the field, and
   * the table is empty exactly when no value was counted.
   */
  lemma TopIsMostFrequent(variant: Variant, reports: seq<Report>, field: string)
    ensures var t := FieldTable(variant, reports, field);
      var cs := CountedStrings(variant, FieldValues(reports, field));
      && (t == [] <==> cs == [])
      && (t != [] ==> TopValue(t) in cs && forall x :: x in cs ==> Occurrences(cs, x) <= Occurrences(cs, TopValue(t)))
  {
    MostCommonFirstIsMax(CountedStrings(variant, FieldValues(reports, field)));
  }

  /**
   * The summary block: `total_reports` is the number of reports; the crash rate lies in
   * [0, 100] and is 0 without reports; the dominant frustration level is the first entry
   * of its table (so also a most frequent level, by TopIsMostFrequent), "unknown" when no
   * level was counted.
   */
  lemma SummarySpec(variant: Variant, issueId: string, reports: seq<Report>)
    ensures var s := SummaryOf(variant, issueId, reports);
      && s.issueId == issueId
      && s.totalReports == |reports|
      && 0.0 <= s.crashRatePct <= 100.0
      && (|reports| == 0 ==> s.crashRatePct == 0.0)
      && s.dominantFrustrationLevel == TopValue(FieldTable(variant, reports, "user_frustration"))
      && s.topAffectedPlatform == TopValue(FieldTable(variant, reports, "platform"))
      && s.topAffectedVersion == TopValue(FieldTable(variant, reports, "software_version"))
      && s.primaryBugBehaviour == TopValue(FieldTable(variant, reports, "bug_behaviour"))
  {
    var ft := FieldTable(variant, reports, "user_frustration");
    if ft != [] {
      MostCommonSpec(CountedStrings(variant, FieldValues(reports, "user_frustration")));
      FirstMaxOfDescending(ft);
    }
  }

  // ---------------------------------------------------------------------------
  // generate_prd: at most five entries of each text aggregate are rendered
  // ---------------------------------------------------------------------------

  const ListedEntries: nat := 5

  /** `items[:5]`. */
  function Shown(items: seq<string>): (r: seq<string>)
    ensures |r| <= ListedEntries
    ensures |r| == if |items| < ListedEntries then |items| else ListedEntries
    ensures r == items[..|r|]
  {
    if |items| <= ListedEntries then items else items[..ListedEntries]
  }

  /** The bullet line written for one entry, without its newline. */
  function Bullet(item: string): string {
    "- " + item
  }

  function BulletLines(items: seq<string>): (r: seq<string>)
    ensures |r| == |items| && forall k :: 0 <= k < |items| ==> r[k] == Bullet(items[k])
  {
    seq(|items|, k requires 0 <= k < |items| => Bullet(items[k]))
  }

  /** The text `for x in items: prd += f"- {x}\n"` appends: the bullet lines, each ended by a newline. */
  function Bullets(items: seq<string>): string {
    Terminated(BulletLines(items))
  }

  /** `for x in items[:5]: prd += f"- {x}\n"`. */
  method AppendEntries(prd: string, items: seq<string>) returns (out: string)
    ensures out == prd + Bullets(Shown(items))
  {
    var shown := if |items| <= ListedEntries then items else items[..ListedEntries];
    out := prd;
    for i := 0 to |shown|
      invariant out == prd + Bullets(shown[..i])
    {
      assert BulletLines(shown[..i + 1]) == BulletLines(shown[..i]) + [Bullet(shown[i])];
      TerminatedSnoc(BulletLines(shown[..i]), Bullet(shown[i]));
      out := out + ("- " + shown[i] + "\n");
    }
    assert shown[..|shown|] == shown;
  }

  /**
   * Entries without line breaks render as exactly one line each, so the PRD shows at most
   * five lines of any text aggregate, the first five of it.
   */
  lemma RenderedLines(items: seq<string>)
    requires forall k :: 0 <= k < |items| ==> '\n' !in items[k]
    ensures var lines := Split(Bullets(Shown(items)), '\n');
      && lines == BulletLines(Shown(items)) + [""]
      && |lines| - 1 <= ListedEntries
  {
    var shown := Shown(items);
    var parts := BulletLines(shown) + [""];
    assert Bullets(shown) == Join(parts, '\n') by {
      JoinAsTerminated(parts);
      assert parts[..|parts| - 1] == BulletLines(shown);
    }
    forall k | 0 <= k < |parts|
      ensures '\n' !in parts[k]
    {
      if k < |shown| {
        assert parts[k] == "- " + shown[k];
        assert '\n' !in shown[k];
      }
    }
    SplitJoin(parts, '\n');
  }
}
