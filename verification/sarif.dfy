/** The SARIF 2.1.0 result builder of `api/tasks.py` (`_mock_build_sarif`).
    A finding is a record whose fields may be absent; the builder fills the
    absent ones with fixed defaults, keeps one rule per distinct rule id in
    first-occurrence order (section 3.19.23 of SARIF 2.1.0, `tool.driver.rules`),
    and emits one result per finding in input order (section 3.14.23, `runs[].results`). */
module Sarif {
  import opened Wrappers
  import opened Seqs
  import PyDicts

  /** Free-form per-finding properties; copied through unchanged. */
  type Properties = map<string, string>

  /** One row produced by an analysis tool. `None` stands for a key missing from the row. */
  datatype Finding = Finding(
    cwe: Option<string>,
    message: Option<string>,
    uri: Option<string>,
    startLine: Option<int>,
    startColumn: Option<int>,
    properties: Option<Properties>)

  datatype Message = Message(text: string)

  datatype Rule = Rule(id: string, shortDescription: Message, fullDescription: Message)

  datatype Region = Region(startLine: int, startColumn: int)
  datatype ArtifactLocation = ArtifactLocation(uri: string)
  datatype PhysicalLocation = PhysicalLocation(artifactLocation: ArtifactLocation, region: Region)
  datatype Location = Location(physicalLocation: PhysicalLocation)

  datatype Result = Result(ruleId: string, message: Message, locations: seq<Location>, properties: Properties)

  datatype Driver = Driver(name: string, version: string, rules: seq<Rule>)
  datatype Tool = Tool(driver: Driver)
  datatype Run = Run(tool: Tool, results: seq<Result>)
  datatype Log = Log(version: string, runs: seq<Run>)

  const SarifVersion: string := "2.1.0"

  /** Rule id used for a finding without a `cwe`. */
  const DefaultRuleId: string := "CWE-000"

  /** `f.get("cwe", "CWE-000")` */
  function RuleIdOf(f: Finding): string {
    f.cwe.GetOr(DefaultRuleId)
  }

  /** The rule ids of the findings, one per finding, in order. */
  function RuleIdsOf(fs: seq<Finding>): seq<string> {
    seq(|fs|, i requires 0 <= i < |fs| => RuleIdOf(fs[i]))
  }

  /** The rule entry created for a rule id: every descriptive text is the id itself. */
  function RuleFor(id: string): Rule {
    Rule(id, Message(id), Message(id))
  }

  /** The result entry for one finding, with the defaults for absent fields. */
  function ResultFor(f: Finding): Result {
    Result(
      RuleIdOf(f),
      Message(f.message.GetOr("")),
      [Location(PhysicalLocation(
        ArtifactLocation(f.uri.GetOr("")),
        Region(f.startLine.GetOr(1), f.startColumn.GetOr(1))))],
      f.properties.GetOr(map[]))
  }

  /** The two accumulators of the builder's loop: the `rules` dict and the `results` list. */
  datatype Builder = Builder(rules: PyDicts.Dict<string, Rule>, results: seq<Result>)

  /** One iteration of the loop over findings. */
  function Step(b: Builder, f: Finding): Builder
    requires b.rules.Valid()
  {
    var id := RuleIdOf(f);
    Builder(PyDicts.SetDefault(b.rules, id, RuleFor(id)), b.results + [ResultFor(f)])
  }

  /** Reference table: the rule dict holding the rule for each of `ids`, in that key order. */
  function RuleTable(ids: seq<string>): PyDicts.Dict<string, Rule> {
    PyDicts.Dict(ids, map id | id in ids :: RuleFor(id))
  }

  /** Reference list: the result for each finding, in input order. */
  function ResultsFor(fs: seq<Finding>): seq<Result> {
    seq(|fs|, i requires 0 <= i < |fs| => ResultFor(fs[i]))
  }

  /** `setdefault` on the reference table adds the id at the end when it is new. */
  lemma RuleTableSetDefault(ids: seq<string>, id: string)
    requires Distinct(ids)
    ensures RuleTable(ids).Valid()
    ensures PyDicts.SetDefault(RuleTable(ids), id, RuleFor(id)) ==
      if id in ids then RuleTable(ids) else RuleTable(ids + [id])
  {
    if id !in ids {
      var r := PyDicts.SetDefault(RuleTable(ids), id, RuleFor(id));
      assert r.vals == RuleTable(ids + [id]).vals;
    }
  }

  /** The state after the loop has consumed `fs`: the rule dict is the table
      of the distinct rule ids in first-occurrence order, and the result list
      holds the result of each finding, in input order. */
  function Accumulate(fs: seq<Finding>): (b: Builder)
    ensures b.rules == RuleTable(Dedup(RuleIdsOf(fs)))
    ensures b.results == ResultsFor(fs)
    decreases |fs|
  {
    if fs == [] then Builder(PyDicts.Empty(), [])
    else
      var init, f := fs[..|fs| - 1], fs[|fs| - 1];
      var b := Accumulate(init);
      StepExtends(fs);
      Step(b, f)
  }

  /** The iteration on the last finding turns the reference state for the
      findings before it into the one for all of `fs`. */
  lemma StepExtends(fs: seq<Finding>)
    requires |fs| > 0
    ensures RuleTable(Dedup(RuleIdsOf(fs[..|fs| - 1]))).Valid()
    ensures Step(Builder(RuleTable(Dedup(RuleIdsOf(fs[..|fs| - 1]))), ResultsFor(fs[..|fs| - 1])), fs[|fs| - 1]) ==
      Builder(RuleTable(Dedup(RuleIdsOf(fs))), ResultsFor(fs))
  {
    StepAppend(fs[..|fs| - 1], fs[|fs| - 1]);
    assert fs[..|fs| - 1] + [fs[|fs| - 1]] == fs;
  }

  lemma StepAppend(fs: seq<Finding>, f: Finding)
    ensures RuleTable(Dedup(RuleIdsOf(fs))).Valid()
    ensures Step(Builder(RuleTable(Dedup(RuleIdsOf(fs))), ResultsFor(fs)), f) ==
      Builder(RuleTable(Dedup(RuleIdsOf(fs + [f]))), ResultsFor(fs + [f]))
  {
    var ids := RuleIdsOf(fs + [f]);
    assert ids[..|ids| - 1] == RuleIdsOf(fs);
    DedupMembers(RuleIdsOf(fs));
    DedupDistinct(RuleIdsOf(fs));
    RuleTableSetDefault(Dedup(RuleIdsOf(fs)), RuleIdOf(f));
    assert ResultsFor(fs) + [ResultFor(f)] == ResultsFor(fs + [f]);
  }

  /** The values of the reference table are one rule per id, in order, each describing its own id. */
  lemma RuleTableValues(ids: seq<string>)
    requires Distinct(ids)
    ensures RuleTable(ids).Valid()
    ensures RuleIds(PyDicts.Values(RuleTable(ids))) == ids
    ensures forall rule :: rule in PyDicts.Values(RuleTable(ids)) ==>
      rule.shortDescription.text == rule.id && rule.fullDescription.text == rule.id
  {
    var rules := PyDicts.Values(RuleTable(ids));
    assert forall i :: 0 <= i < |rules| ==> rules[i] == RuleFor(ids[i]);
  }

  /** The rule ids listed by a driver, in order. */
  function RuleIds(rules: seq<Rule>): seq<string> {
    seq(|rules|, i requires 0 <= i < |rules| => rules[i].id)
  }

  /** `_mock_build_sarif(analyzer_name, analyzer_version, findings)` */
  function BuildSarif(analyzerName: string, analyzerVersion: string, findings: seq<Finding>): (log: Log)
    ensures log.version == SarifVersion && |log.runs| == 1
    ensures log.runs[0].tool.driver.name == analyzerName
    ensures log.runs[0].tool.driver.version == analyzerVersion
    // rules: one per distinct rule id, in first-occurrence order, every text equal to the id
    ensures RuleIds(log.runs[0].tool.driver.rules) == Dedup(RuleIdsOf(findings))
    ensures forall rule :: rule in log.runs[0].tool.driver.rules ==>
      rule.shortDescription.text == rule.id && rule.fullDescription.text == rule.id
    // results: one per finding, in input order, absent fields defaulted
    ensures |log.runs[0].results| == |findings|
    ensures forall i :: 0 <= i < |findings| ==>
      var r, f := log.runs[0].results[i], findings[i];
      && r.ruleId == f.cwe.GetOr(DefaultRuleId)
      && r.message.text == f.message.GetOr("")
      && |r.locations| == 1
      && r.locations[0].physicalLocation.artifactLocation.uri == f.uri.GetOr("")
      && r.locations[0].physicalLocation.region.startLine == f.startLine.GetOr(1)
      && r.locations[0].physicalLocation.region.startColumn == f.startColumn.GetOr(1)
      && r.properties == f.properties.GetOr(map[])
  {
    var b := Accumulate(findings);
    DedupDistinct(RuleIdsOf(findings));
    RuleTableValues(Dedup(RuleIdsOf(findings)));
    var rules := PyDicts.Values(b.rules);
    Log(SarifVersion, [Run(Tool(Driver(analyzerName, analyzerVersion, rules)), b.results)])
  }

  function RulesOf(log: Log): seq<Rule>
    requires |log.runs| > 0
  {
    log.runs[0].tool.driver.rules
  }

  function ResultsOf(log: Log): seq<Result>
    requires |log.runs| > 0
  {
    log.runs[0].results
  }

  lemma BuiltResults(name: string, version: string, findings: seq<Finding>)
    ensures ResultsOf(BuildSarif(name, version, findings)) == ResultsFor(findings)
  {
    assert ResultsOf(BuildSarif(name, version, findings)) == Accumulate(findings).results;
  }

  /** No two rules share an id. */
  lemma RuleIdsUnique(name: string, version: string, findings: seq<Finding>)
    ensures Distinct(RuleIds(RulesOf(BuildSarif(name, version, findings))))
  {
    DedupDistinct(RuleIdsOf(findings));
  }

  /** The rule list is characterised by first-occurrence order: a list of ids is
      the driver's rule ids if and only if it lists every rule id of the findings
      once, ordered by where each first occurs. */
  lemma RulesCharacterised(name: string, version: string, findings: seq<Finding>, ids: seq<string>)
    ensures FirstOccurrenceOrder(RuleIdsOf(findings), ids) <==> ids == RuleIds(RulesOf(BuildSarif(name, version, findings)))
  {
    DedupFirstOccurrence(RuleIdsOf(findings));
    if FirstOccurrenceOrder(RuleIdsOf(findings), ids) {
      FirstOccurrenceOrderUnique(RuleIdsOf(findings), ids);
    }
  }

  /** There are as many rules as distinct rule ids among the findings. */
  lemma RuleCountIsDistinctIds(name: string, version: string, findings: seq<Finding>)
    ensures |RulesOf(BuildSarif(name, version, findings))| == |set i | 0 <= i < |findings| :: RuleIdOf(findings[i])|
  {
    var ids := RuleIdsOf(findings);
    var d := Dedup(ids);
    DedupDistinct(ids);
    DedupMembers(ids);
    DistinctCardinality(d);
    assert (set x | x in d) == (set i | 0 <= i < |findings| :: RuleIdOf(findings[i])) by {
      forall x | x in d
        ensures x in (set i | 0 <= i < |findings| :: RuleIdOf(findings[i]))
      {
        var i :| 0 <= i < |ids| && ids[i] == x;
        assert RuleIdOf(findings[i]) == x;
      }
      forall i | 0 <= i < |findings|
        ensures RuleIdOf(findings[i]) in d
      {
        assert ids[i] == RuleIdOf(findings[i]);
      }
    }
  }

  /** Every result refers to a rule that the driver lists. */
  lemma EveryResultHasRule(name: string, version: string, findings: seq<Finding>)
    ensures forall result :: result in ResultsOf(BuildSarif(name, version, findings)) ==>
      result.ruleId in RuleIds(RulesOf(BuildSarif(name, version, findings)))
  {
    var log := BuildSarif(name, version, findings);
    var ids := RuleIdsOf(findings);
    DedupMembers(ids);
    forall result | result in ResultsOf(log)
      ensures result.ruleId in RuleIds(RulesOf(log))
    {
      var i :| 0 <= i < |ResultsOf(log)| && ResultsOf(log)[i] == result;
      assert result.ruleId == ids[i];
    }
  }

  /** No findings, no rules and no results. */
  lemma EmptyFindings(name: string, version: string)
    ensures RulesOf(BuildSarif(name, version, [])) == []
    ensures ResultsOf(BuildSarif(name, version, [])) == []
  {
  }

  lemma RuleIdsOfAppend(fs: seq<Finding>, gs: seq<Finding>)
    ensures RuleIdsOf(fs + gs) == RuleIdsOf(fs) + RuleIdsOf(gs)
  {
  }

  /** More findings only extend the rule list: the earlier rules stay, in the same order. */
  lemma AppendKeepsRules(name: string, version: string, fs: seq<Finding>, gs: seq<Finding>)
    ensures RulesOf(BuildSarif(name, version, fs)) <= RulesOf(BuildSarif(name, version, fs + gs))
  {
    var a, b := Accumulate(fs), Accumulate(fs + gs);
    var short, long := PyDicts.Values(a.rules), PyDicts.Values(b.rules);
    assert RulesOf(BuildSarif(name, version, fs)) == short;
    assert RulesOf(BuildSarif(name, version, fs + gs)) == long;
    RuleIdsOfAppend(fs, gs);
    DedupPrefix(RuleIdsOf(fs), RuleIdsOf(gs));
    assert a.rules.keys <= b.rules.keys;
    forall i | 0 <= i < |short|
      ensures short[i] == long[i]
    {
      assert a.rules.keys[i] == b.rules.keys[i];
      assert a.rules.keys[i] in a.rules.vals;
      assert b.rules.keys[i] in b.rules.vals;
    }
  }

  /** The result list the loop builds for a concatenation of finding lists is
      the concatenation of their result lists: each result depends only on its
      own finding. */
  lemma AppendConcatenatesResults(name: string, version: string, fs: seq<Finding>, gs: seq<Finding>)
    ensures ResultsOf(BuildSarif(name, version, fs + gs)) ==
      ResultsOf(BuildSarif(name, version, fs)) + ResultsOf(BuildSarif(name, version, gs))
  {
    BuiltResults(name, version, fs);
    BuiltResults(name, version, gs);
    BuiltResults(name, version, fs + gs);
    ResultsForAppend(fs, gs);
  }

  lemma ResultsForAppend(fs: seq<Finding>, gs: seq<Finding>)
    ensures ResultsFor(fs + gs) == ResultsFor(fs) + ResultsFor(gs)
  {
  }
}
