# Output decoders of cricket's pytest adapter tests

cricket is a graphical front end for test runners. Its pytest adapter runs
pytest in a child process. In discovery mode the child prints one test
identifier per line. In execution mode it prints one JSON record per line: an
echo `{"path": <identifier>}` when a test starts, and an outcome
`{"status": <code>}` when it ends. The adapter's test suite
(`tests/test_pytest.py`) reads that output back with two small decoders. This
project models those two decoders and proves what they compute.

- `Lines` (`lines.dfy`) models Python's `str.split('\n')` as `Split`, with
  its inverse `Join`. It proves the two round trips, the number of pieces, and
  the extra empty piece that a trailing newline produces.
- `Discovery` (`discovery.dfy`) models the discovery filter as the method
  `Discover`. It is a `for` loop over the split lines that adds every non-empty
  line to a set. `Render` models the discovery protocol's output (each
  identifier followed by a newline). The lemmas show that discovery over that
  output finds exactly the printed identifiers, whatever their order or
  repetition, and that blank lines change nothing.
- `Execution` (`execution.dfy`) models the execution decoder as the method
  `Execute`. It is a loop over the split lines that decodes each one, adds echo
  paths to `found`, counts outcome codes in `results`, skips lines that are not
  JSON, and stops with a failure on any other payload. `Run` is the same loop
  written as a left fold over decoded lines, and `Execute` is proved equal to
  it. `Feed` is one pass of the loop body (tests/test_pytest.py:80-87): it
  takes the tally so far and one decoded line and gives the new tally, or the
  failure. `CountOf` models `results.setdefault(code, 0)`: the current count of
  a code, or zero when the code has no entry yet. Three reference definitions
  say what a completed run returns:
  - `EchoPaths`: the set of echo paths;
  - `OutcomeCodes`: the outcome codes in order;
  - `Counts`: each code mapped to its number of occurrences.
  The lemmas tie `Run` to these definitions. They prove that `path` takes
  priority over `status`, that every count is positive, that the counts add up
  to the number of outcome records, that output that is not JSON is ignored
  wherever it stands, and that a fatal payload stops the run at its own line.

`json.loads` is not modelled. `Execute` takes it as a parameter,
`decode: string -> Decoded`, which sorts each line into one of three cases:
`NotJson` (the line raises `JSONDecodeError`), `Object(fields)` (a JSON
object) or `NonObject` (any other JSON value). The child process and its
output bytes are not modelled either. The output arrives as an
already-decoded `string`.

Three further facts about the execution loop:

- An object with neither `path` nor `status` ends the run through `self.fail` (tests/test_pytest.py:86-87).
- Any string under `status` is counted, with no check against a vocabulary of outcome codes (tests/test_pytest.py:83-85).
- The loop counts outcomes per code (tests/test_pytest.py:84-85).

## Model

| member | source | states |
|---|---|---|
| `Lines.Split` | tests/test_pytest.py:26 | `str.split('\n')` gives one more piece than the text has newlines, and no piece contains a newline |
| `Lines.JoinSplit` | tests/test_pytest.py:26 | rejoining the split pieces with newlines gives back the original output exactly, so splitting loses nothing |
| `Lines.SplitJoin` | tests/test_pytest.py:26 | splitting newline-free lines joined by newlines gives back those lines, so `Split` is the exact inverse of `Join` |
| `Lines.SplitTrailingNewline` | tests/test_pytest.py:78 | a final newline in the output adds exactly one empty piece at the end of the split |
| `Discovery.Discover` | tests/test_pytest.py:25-28 | `found` is exactly the set of non-empty pieces of `stdout.split('\n')`; the empty string is never a member, and no member contains a newline |
| `Discovery.DiscoverRendered` | tests/test_pytest.py:25-28 | when the output prints each identifier on its own line, discovery finds exactly the set of printed identifiers |
| `Discovery.DiscoveryIgnoresOrderAndRepeats` | tests/test_pytest.py:25-28 | printing the same identifiers in another order, or some of them more than once, gives the same `found` set |
| `Discovery.BlankLineIgnored` | tests/test_pytest.py:26-27 | an extra blank line anywhere in the output does not change the `found` set |
| `Execution.Execute` | tests/test_pytest.py:76-91 | the loop returns exactly what the fold `Run` over the decoded split lines returns; the lemmas below say what that is |
| `Execution.RunCompletes` | tests/test_pytest.py:76-91 | when no payload is fatal, the run completes with `found` equal to the set of echo paths and `results` equal to the count of each outcome code |
| `Execution.RunAbortsAtFirstFault` | tests/test_pytest.py:79-89 | the run completes if and only if no payload is fatal; when it fails, it fails at the first fatal payload and reports that payload's fault |
| `Execution.AbortIsFinal` | tests/test_pytest.py:86-87 | once the run has failed, later lines do not change the result |
| `Execution.FaultStopsRun` | tests/test_pytest.py:81-87 | after a completed prefix, an object with neither key (or a value that is not an object) ends the run at its own line with that fault, whatever lines follow |
| `Execution.FoundIsEchoPaths` | tests/test_pytest.py:81-82 | in a completed run, a path is in `found` if and only if some decoded line is an object with that `path` |
| `Execution.ResultsCountOutcomes` | tests/test_pytest.py:83-85 | in a completed run, `c` is a key of `results` if and only if some line without `path` has status `c`; `results[c]` is the number of such lines, so it is at least 1 |
| `Execution.ResultsTotal` | tests/test_pytest.py:83-85 | in a completed run, the counts in `results` add up to the number of outcome lines |
| `Execution.NotJsonLeavesStateUnchanged` | tests/test_pytest.py:88-89 | a line that fails JSON decoding leaves both `found` and `results` unchanged |
| `Execution.NotJsonIgnoredAnywhere` | tests/test_pytest.py:79-89 | inserting an undecodable line anywhere does not change whether the run fails, with which fault, or what a completed run returns; a later failure is reported one line later |
| `Execution.TrailingPieceIgnored` | tests/test_pytest.py:78-89 | the empty piece after the output's final newline is not JSON, so output with and without a trailing newline decodes alike |
| `Execution.PathTakesPriority` | tests/test_pytest.py:81-85 | a record with both `path` and `status` only adds its path to `found`; `results` is untouched |

## Left out

- Process I/O is not modelled: `subprocess.run`, the working directory, stderr, and decoding stdout as UTF-8 (tests/test_pytest.py:16-23, 67-74). The output arrives as a `string`, so a UTF-8 decoding error is out of scope.
- `PyTestTestSuite.discover_commandline` and `execute_commandline` are not modelled. They belong to `cricket/pytest/model.py`, which is not part of this model.
- The internals of `json.loads` are not modelled. The decoder is the parameter `decode`, and its only assumption, that the empty line is not JSON, is a hypothesis of `Execution.TrailingPieceIgnored`.
- Execution.Execute does not tell apart the two exceptions Python raises for a decoded value that is not an object. Python raises `TypeError` for numbers, `null`, booleans, and strings or arrays that contain `"path"` or `"status"`. It reaches `self.fail` for other strings and arrays. Both end the run at that line, and the model reports both as `NotAnObject`.
- The values of object members are modelled as strings. Python would also add a non-string `path` value to `found`, or raise `TypeError` when that value or a `status` value cannot be hashed (an object or an array).
- The error message text of `self.fail` is not modelled. The model states only the fault kind and the 0-based index of the line.
- The expected identifier sets and outcome counts in the assertions (tests/test_pytest.py:30-59, 96-125, 132-208) are not modelled. They depend on the external sample project and on how pytest expands selections.
- The expected-failure overlap test (tests/test_pytest.py:180-194) is not modelled. It describes pytest's own behaviour, not logic in this file.
- The unittest mechanics (`assertEqual`, `expectedFailure`) are not modelled. `self.fail` matters only as the error outcome of the decoder.
- The insertion order of the Python `results` dict is not modelled. `results` is a Dafny `map`, which compares like a dict under `==`.
