/**
  The execution decoder of the pytest adapter's tests: every line the execution
  run prints is decoded as JSON; an object with a "path" member is a test-started
  echo whose path joins the set `found`, an object with a "status" member (and no
  "path") is an outcome whose code is counted in `results`, a line that is not
  JSON is skipped, and any other decoded value ends the run with a failure.
 */
module Execution {

  import opened Lines

  /** What `json.loads` makes of one line. */
  datatype Decoded =
    | NotJson                              // the line raises JSONDecodeError
    | Object(fields: map<string, string>)  // a JSON object, by member name
    | NonObject                            // a number, string, array, true, false or null

  /** Why a run ends before its last line. */
  datatype Fault =
    | UnknownPayload  // an object with neither "path" nor "status"
    | NotAnObject     // a decoded value that is not an object

  /** What the loop has accumulated: the echoed paths and the count of each outcome code. */
  datatype Tally = Tally(found: set<string>, results: map<string, nat>)

  /** What `ExecutorTests.execute` returns, or the failure that ends it at split piece `line`. */
  datatype Outcome =
    | Completed(tally: Tally)
    | Aborted(fault: Fault, line: nat)

  const Start := Tally({}, map[])

  predicate IsEcho(d: Decoded)
  {
    d.Object? && "path" in d.fields
  }

  predicate IsOutcome(d: Decoded)
  {
    d.Object? && "path" !in d.fields && "status" in d.fields
  }

  predicate IsFatal(d: Decoded)
  {
    d.NonObject? || (d.Object? && "path" !in d.fields && "status" !in d.fields)
  }

  function FaultOf(d: Decoded): (f: Fault)
    requires IsFatal(d)
  {
    if d.NonObject? then NotAnObject else UnknownPayload
  }

  /** The count of `code` in `results`, zero when absent (`results.setdefault(code, 0)`). */
  function CountOf(results: map<string, nat>, code: string): (count: nat)
  {
    if code in results then results[code] else 0
  }

  /** One pass of the loop body over the payload of split piece `at`. */
  function Feed(t: Tally, d: Decoded, at: nat): (o: Outcome)
  {
    match d
    case NotJson => Completed(t)
    case NonObject => Aborted(NotAnObject, at)
    case Object(fields) =>
      if "path" in fields then
        Completed(t.(found := t.found + {fields["path"]}))
      else if "status" in fields then
        var code := fields["status"];
        Completed(t.(results := t.results[code := CountOf(t.results, code) + 1]))
      else
        Aborted(UnknownPayload, at)
  }

  /** The loop over a sequence of decoded lines, in order, stopping at the first failure. */
  function Run(ps: seq<Decoded>): (o: Outcome)
    decreases |ps|
  {
    if ps == [] then Completed(Start)
    else
      match Run(ps[..|ps| - 1])
      case Completed(t) => Feed(t, ps[|ps| - 1], |ps| - 1)
      case Aborted(f, k) => Aborted(f, k)
  }

  /** `json.loads` applied to every line. */
  function DecodeAll(lines: seq<string>, decode: string -> Decoded): (ps: seq<Decoded>)
  {
    seq(|lines|, i requires 0 <= i < |lines| => decode(lines[i]))
  }

  /**
    Runs the decoder over the execution output `stdout`, with `decode` standing
    for `json.loads`.
   */
  method Execute(stdout: string, decode: string -> Decoded) returns (outcome: Outcome)
    ensures outcome == Run(DecodeAll(Split(stdout), decode))
  {
    var lines := Split(stdout);
    ghost var ps := DecodeAll(lines, decode);
    var found: set<string> := {};
    var results: map<string, nat> := map[];
    for i := 0 to |lines|
      invariant Run(ps[..i]) == Completed(Tally(found, results))
    {
      assert ps[..i + 1][..i] == ps[..i];
      var payload := decode(lines[i]);
      match payload {
        case NotJson =>
        case NonObject =>
          AbortIsFinal(ps[..i + 1], ps[i + 1..]);
          assert ps[..i + 1] + ps[i + 1..] == ps;
          return Aborted(NotAnObject, i);
        case Object(fields) =>
          if "path" in fields {
            found := found + {fields["path"]};
          } else if "status" in fields {
            var count := if fields["status"] in results then results[fields["status"]] else 0;
            results := results[fields["status"] := count + 1];
          } else {
            AbortIsFinal(ps[..i + 1], ps[i + 1..]);
            assert ps[..i + 1] + ps[i + 1..] == ps;
            return Aborted(UnknownPayload, i);
          }
      }
    }
    assert ps[..|lines|] == ps;
    return Completed(Tally(found, results));
  }

  // ---------------------------------------------------------------------------
  // Reference description of what a run computes

  /** No payload in `ps` ends the run. */
  predicate NoFault(ps: seq<Decoded>)
  {
    forall i :: 0 <= i < |ps| ==> !IsFatal(ps[i])
  }

  /** The paths of all echo records in `ps`. */
  function EchoPaths(ps: seq<Decoded>): (paths: set<string>)
  {
    set i | 0 <= i < |ps| && IsEcho(ps[i]) :: ps[i].fields["path"]
  }

  /** The codes of all outcome records in `ps`, in order. */
  function OutcomeCodes(ps: seq<Decoded>): (codes: seq<string>)
    decreases |ps|
  {
    if ps == [] then []
    else
      var last := ps[|ps| - 1];
      OutcomeCodes(ps[..|ps| - 1]) + (if IsOutcome(last) then [last.fields["status"]] else [])
  }

  /** Each code that occurs in `codes`, mapped to how often it occurs. */
  function Counts(codes: seq<string>): (counts: map<string, nat>)
  {
    map c | c in codes :: multiset(codes)[c]
  }

  lemma EchoPathsSnoc(ps: seq<Decoded>, d: Decoded)
    ensures EchoPaths(ps + [d]) == EchoPaths(ps) + (if IsEcho(d) then {d.fields["path"]} else {})
  {
    var qs := ps + [d];
    forall x | x in EchoPaths(qs)
      ensures x in EchoPaths(ps) + (if IsEcho(d) then {d.fields["path"]} else {})
    {
      var i :| 0 <= i < |qs| && IsEcho(qs[i]) && qs[i].fields["path"] == x;
      if i < |ps| { assert ps[i] == qs[i]; }
    }
    forall x | x in EchoPaths(ps) ensures x in EchoPaths(qs) {
      var i :| 0 <= i < |ps| && IsEcho(ps[i]) && ps[i].fields["path"] == x;
      assert qs[i] == ps[i];
    }
    if IsEcho(d) {
      assert qs[|ps|] == d;
    }
  }

  lemma CountsSnoc(codes: seq<string>, c: string)
    ensures Counts(codes + [c]) == Counts(codes)[c := CountOf(Counts(codes), c) + 1]
  {
    var m, m' := Counts(codes), Counts(codes + [c]);
    assert multiset(codes + [c]) == multiset(codes) + multiset{c};
    forall x | x in m' ensures x in m || x == c {
      if x != c { assert x in codes; }
    }
    if c in codes {
      assert CountOf(m, c) == multiset(codes)[c];
    } else {
      assert multiset(codes)[c] == 0;
    }
  }

  /** A run over lines none of which fails completes with the reference tally. */
  lemma {:induction false} RunCompletes(ps: seq<Decoded>)
    requires NoFault(ps)
    ensures Run(ps) == Completed(Tally(EchoPaths(ps), Counts(OutcomeCodes(ps))))
    decreases |ps|
  {
    if ps == [] {
      assert EchoPaths(ps) == {};
    } else {
      var init, last := ps[..|ps| - 1], ps[|ps| - 1];
      assert ps == init + [last];
      RunCompletes(init);
      EchoPathsSnoc(init, last);
      if IsOutcome(last) {
        CountsSnoc(OutcomeCodes(init), last.fields["status"]);
      } else {
        assert OutcomeCodes(ps) == OutcomeCodes(init);
      }
    }
  }

  /** Once a run has failed, later lines change nothing: none of them is processed. */
  lemma {:induction false} AbortIsFinal(ps: seq<Decoded>, more: seq<Decoded>)
    requires Run(ps).Aborted?
    ensures Run(ps + more) == Run(ps)
    decreases |more|
  {
    if more != [] {
      var init := more[..|more| - 1];
      var all := ps + more;
      AbortIsFinal(ps, init);
      assert all[..|all| - 1] == ps + init;
      assert Run(all[..|all| - 1]).Aborted?;
    } else {
      assert ps + more == ps;
    }
  }

  /** A run fails exactly at the first payload that is fatal, with that payload's fault. */
  lemma {:induction false} RunAbortsAtFirstFault(ps: seq<Decoded>)
    ensures Run(ps).Completed? <==> NoFault(ps)
    ensures Run(ps).Aborted? ==>
      var k := Run(ps).line;
      k < |ps| && IsFatal(ps[k]) && Run(ps).fault == FaultOf(ps[k]) && NoFault(ps[..k])
    decreases |ps|
  {
    if ps != [] {
      var init, last := ps[..|ps| - 1], ps[|ps| - 1];
      assert ps == init + [last];
      RunAbortsAtFirstFault(init);
      if Run(init).Aborted? {
        var k := Run(init).line;
        assert ps[k] == init[k];
        assert ps[..k] == init[..k];
      } else {
        assert ps[..|ps| - 1] == init;
      }
    }
  }

  // ---------------------------------------------------------------------------
  // What the return value of `ExecutorTests.execute` means

  /** `found` holds exactly the paths of the echo records. */
  lemma {:induction false} FoundIsEchoPaths(ps: seq<Decoded>)
    requires Run(ps).Completed?
    ensures forall path :: path in Run(ps).tally.found <==>
      exists i :: 0 <= i < |ps| && IsEcho(ps[i]) && ps[i].fields["path"] == path
  {
    RunAbortsAtFirstFault(ps);
    RunCompletes(ps);
  }

  /**
    `results` maps each code to the number of outcome records with that code,
    and holds no other key; so no key maps to zero.
   */
  lemma {:induction false} ResultsCountOutcomes(ps: seq<Decoded>)
    requires Run(ps).Completed?
    ensures forall c :: c in Run(ps).tally.results <==> c in OutcomeCodes(ps)
    ensures forall c :: c in Run(ps).tally.results ==>
      Run(ps).tally.results[c] == multiset(OutcomeCodes(ps))[c] >= 1
  {
    RunAbortsAtFirstFault(ps);
    RunCompletes(ps);
  }

  /** The sum of the values of a count map. */
  ghost function Total(m: map<string, nat>): (sum: nat)
    decreases |m|
  {
    if m == map[] then 0
    else
      var k := Pick(m);
      m[k] + Total(m - {k})
  }

  ghost function Pick(m: map<string, nat>): (k: string)
    requires m != map[]
    ensures k in m
  {
    assert exists k :: k in m.Keys by {
      assert m.Keys != {};
    }
    var k :| k in m.Keys; k
  }

  /** The sum does not depend on which key is taken out first. */
  lemma {:induction false} TotalRemove(m: map<string, nat>, k: string)
    requires k in m
    ensures Total(m) == m[k] + Total(m - {k})
    decreases |m|
  {
    var j := Pick(m);
    if j != k {
      var mj := m - {j};
      TotalRemove(mj, k);
      TotalRemove(m - {k}, j);
      assert mj - {k} == (m - {k}) - {j};
    }
  }

  /** Raising one count by one raises the sum by one. */
  lemma TotalIncrement(m: map<string, nat>, c: string)
    ensures Total(m[c := CountOf(m, c) + 1]) == Total(m) + 1
  {
    var m' := m[c := CountOf(m, c) + 1];
    TotalRemove(m', c);
    if c in m {
      TotalRemove(m, c);
      assert m' - {c} == m - {c};
    } else {
      assert m' - {c} == m;
    }
  }

  /** The counts of a list of codes add up to its length. */
  lemma {:induction false} TotalCounts(codes: seq<string>)
    ensures Total(Counts(codes)) == |codes|
    decreases |codes|
  {
    if codes == [] {
      assert Counts(codes) == map[];
    } else {
      var init := codes[..|codes| - 1];
      assert codes == init + [codes[|codes| - 1]];
      TotalCounts(init);
      CountsSnoc(init, codes[|codes| - 1]);
      TotalIncrement(Counts(init), codes[|codes| - 1]);
    }
  }

  /** All the counts together equal the number of outcome records. */
  lemma {:induction false} ResultsTotal(ps: seq<Decoded>)
    requires Run(ps).Completed?
    ensures Total(Run(ps).tally.results) == |OutcomeCodes(ps)|
  {
    RunAbortsAtFirstFault(ps);
    RunCompletes(ps);
    TotalCounts(OutcomeCodes(ps));
  }

  // ---------------------------------------------------------------------------
  // Lines that are not JSON, priority of "path", and failure

  /** A line that fails to decode leaves `found` and `results` as they were. */
  lemma NotJsonLeavesStateUnchanged(ps: seq<Decoded>)
    ensures Run(ps + [NotJson]) == Run(ps)
  {
    assert (ps + [NotJson])[..|ps|] == ps;
  }

  lemma OutcomeCodesAppend(ps: seq<Decoded>, qs: seq<Decoded>)
    ensures OutcomeCodes(ps + qs) == OutcomeCodes(ps) + OutcomeCodes(qs)
    decreases |qs|
  {
    if qs == [] {
      assert ps + qs == ps;
    } else {
      var init := qs[..|qs| - 1];
      assert (ps + qs)[..|ps + qs| - 1] == ps + init;
      OutcomeCodesAppend(ps, init);
    }
  }

  /** Inserting a line that is not JSON: what each payload at each position becomes. */
  lemma InsertNotJsonAt(ps: seq<Decoded>, k: nat)
    requires k <= |ps|
    ensures var padded := ps[..k] + [NotJson] + ps[k..];
      && |padded| == |ps| + 1 && padded[k] == NotJson
      && (forall i :: 0 <= i < k ==> padded[i] == ps[i])
      && (forall i :: k <= i < |ps| ==> padded[i + 1] == ps[i])
  {
  }

  /** Inserting a line that is not JSON adds no fault. */
  lemma InsertNotJsonKeepsNoFault(ps: seq<Decoded>, k: nat)
    requires k <= |ps|
    ensures NoFault(ps[..k] + [NotJson] + ps[k..]) <==> NoFault(ps)
  {
    var padded := ps[..k] + [NotJson] + ps[k..];
    InsertNotJsonAt(ps, k);
    forall i | 0 <= i < |ps| && IsFatal(ps[i]) ensures !NoFault(padded) {
      if i < k { assert padded[i] == ps[i]; } else { assert padded[i + 1] == ps[i]; }
    }
    forall i | 0 <= i < |padded| && IsFatal(padded[i]) ensures !NoFault(ps) {
      if i < k { assert padded[i] == ps[i]; } else { assert padded[i] == ps[i - 1]; }
    }
  }

  /** Inserting a line that is not JSON adds no echo. */
  lemma InsertNotJsonKeepsEchoPaths(ps: seq<Decoded>, k: nat)
    requires k <= |ps|
    ensures EchoPaths(ps[..k] + [NotJson] + ps[k..]) == EchoPaths(ps)
  {
    var padded := ps[..k] + [NotJson] + ps[k..];
    InsertNotJsonAt(ps, k);
    forall x | x in EchoPaths(padded) ensures x in EchoPaths(ps) {
      var i :| 0 <= i < |padded| && IsEcho(padded[i]) && padded[i].fields["path"] == x;
      if i < k { assert ps[i] == padded[i]; } else { assert ps[i - 1] == padded[i]; }
    }
    forall x | x in EchoPaths(ps) ensures x in EchoPaths(padded) {
      var i :| 0 <= i < |ps| && IsEcho(ps[i]) && ps[i].fields["path"] == x;
      if i < k { assert padded[i] == ps[i]; } else { assert padded[i + 1] == ps[i]; }
    }
  }

  /** Inserting a line that is not JSON adds no outcome. */
  lemma InsertNotJsonKeepsOutcomeCodes(ps: seq<Decoded>, k: nat)
    requires k <= |ps|
    ensures OutcomeCodes(ps[..k] + [NotJson] + ps[k..]) == OutcomeCodes(ps)
  {
    var a, b := ps[..k], ps[k..];
    assert ps == a + b;
    assert OutcomeCodes([NotJson]) == [] by {
      assert [NotJson][..0] == [];
    }
    OutcomeCodesAppend(a, [NotJson]);
    OutcomeCodesAppend(a + [NotJson], b);
    OutcomeCodesAppend(a, b);
  }

  /** There is only one first fatal payload. */
  lemma FirstFaultUnique(ps: seq<Decoded>, j: nat, j': nat)
    requires j < |ps| && IsFatal(ps[j]) && NoFault(ps[..j])
    requires j' < |ps| && IsFatal(ps[j']) && NoFault(ps[..j'])
    ensures j == j'
  {
  }

  /**
    A line that fails to decode, wherever it stands, changes neither whether
    the run fails, nor the fault, nor what a completed run returns; a failure
    after it is reported one line later.
   */
  lemma NotJsonIgnoredAnywhere(ps: seq<Decoded>, k: nat)
    requires k <= |ps|
    ensures var padded := ps[..k] + [NotJson] + ps[k..];
      && (Run(padded).Completed? <==> Run(ps).Completed?)
      && (Run(ps).Completed? ==> Run(padded) == Run(ps))
      && (Run(ps).Aborted? ==>
            Run(padded) == Aborted(Run(ps).fault, if Run(ps).line < k then Run(ps).line else Run(ps).line + 1))
  {
    var padded := ps[..k] + [NotJson] + ps[k..];
    InsertNotJsonKeepsNoFault(ps, k);
    InsertNotJsonKeepsEchoPaths(ps, k);
    InsertNotJsonKeepsOutcomeCodes(ps, k);
    RunAbortsAtFirstFault(ps);
    RunAbortsAtFirstFault(padded);
    if NoFault(ps) {
      RunCompletes(ps);
      RunCompletes(padded);
    } else {
      InsertNotJsonAt(ps, k);
      var j := Run(ps).line;
      var m := if j < k then j else j + 1;
      assert padded[m] == ps[j];
      forall i | 0 <= i < m ensures !IsFatal(padded[..m][i]) {
        assert padded[..m][i] == padded[i];
        if i < k {
          assert padded[i] == ps[..j][i];
        } else if i > k {
          assert padded[i] == ps[..j][i - 1];
        }
      }
      FirstFaultUnique(padded, m, Run(padded).line);
    }
  }

  /** DecodeAll distributes over appending one line. */
  lemma DecodeAllSnoc(lines: seq<string>, line: string, decode: string -> Decoded)
    ensures DecodeAll(lines + [line], decode) == DecodeAll(lines, decode) + [decode(line)]
  {
  }

  /**
    The empty piece after the output's final newline is not JSON, so it changes
    nothing: output with or without a trailing newline decodes alike.
   */
  lemma TrailingPieceIgnored(stdout: string, decode: string -> Decoded)
    requires decode("") == NotJson
    ensures Run(DecodeAll(Split(stdout + [Newline]), decode)) == Run(DecodeAll(Split(stdout), decode))
  {
    SplitTrailingNewline(stdout);
    DecodeAllSnoc(Split(stdout), "", decode);
    NotJsonLeavesStateUnchanged(DecodeAll(Split(stdout), decode));
  }

  /** A record with both "path" and "status" is an echo only: `results` is untouched. */
  lemma PathTakesPriority(ps: seq<Decoded>, d: Decoded)
    requires Run(ps).Completed?
    requires d.Object? && "path" in d.fields && "status" in d.fields
    ensures Run(ps + [d]) == Completed(Run(ps).tally.(found := Run(ps).tally.found + {d.fields["path"]}))
    ensures Run(ps + [d]).tally.results == Run(ps).tally.results
  {
    assert (ps + [d])[..|ps|] == ps;
  }

  /**
    A fatal payload ends the run at its own line, whatever follows it: no later
    line is processed.
   */
  lemma FaultStopsRun(ps: seq<Decoded>, d: Decoded, more: seq<Decoded>)
    requires Run(ps).Completed?
    requires IsFatal(d)
    ensures Run(ps + [d] + more) == Aborted(FaultOf(d), |ps|)
  {
    assert (ps + [d])[..|ps|] == ps;
    AbortIsFinal(ps + [d], more);
  }
}
