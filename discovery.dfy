/**
  The discovery filter of the pytest adapter's tests: the discovery run prints
  one test identifier per line, and `DiscoveryTests.test_discovery` collects
  every non-empty line of that output into a set.
 */
module Discovery {

  import opened Lines

  /** The identifiers a list of lines names: its non-empty lines, as a set. */
  function NonEmptyLines(lines: seq<string>): (ids: set<string>)
  {
    set line | line in lines && line != ""
  }

  /**
    Collects the identifiers in the discovery output `stdout`: every non-empty
    piece of `stdout.split('\n')`, and nothing else.
   */
  method Discover(stdout: string) returns (found: set<string>)
    ensures found == NonEmptyLines(Split(stdout))
    ensures "" !in found
    ensures forall id :: id in found ==> Newline !in id
  {
    found := {};
    var lines := Split(stdout);
    for i := 0 to |lines|
      invariant found == NonEmptyLines(lines[..i])
    {
      var line := lines[i];
      assert lines[..i + 1] == lines[..i] + [line];
      if line != "" {
        found := found + {line};
      }
    }
    assert lines[..|lines|] == lines;
  }

  /** A valid identifier, as the discovery protocol prints it: non-empty and on one line. */
  predicate IsIdentifier(id: string)
  {
    id != "" && Newline !in id
  }

  /** The discovery protocol's output for `ids`: each identifier followed by a newline. */
  function Render(ids: seq<string>): (out: string)
    decreases |ids|
  {
    if ids == [] then "" else ids[0] + [Newline] + Render(ids[1..])
  }

  /** The rendered output splits into the identifiers and one empty trailing piece. */
  lemma {:induction false} SplitRender(ids: seq<string>)
    requires forall i :: 0 <= i < |ids| ==> Newline !in ids[i]
    ensures Split(Render(ids)) == ids + [""]
    decreases |ids|
  {
    if ids != [] {
      SplitAfterPiece(ids[0], Render(ids[1..]));
      SplitRender(ids[1..]);
      assert ids == [ids[0]] + ids[1..];
    }
  }

  /** The non-empty lines of identifiers plus a trailing empty piece are the identifiers. */
  lemma NonEmptyLinesWithTrailer(ids: seq<string>)
    requires forall i :: 0 <= i < |ids| ==> IsIdentifier(ids[i])
    ensures NonEmptyLines(ids + [""]) == set id | id in ids
  {
    var lines := ids + [""];
    forall id | id in ids ensures id in NonEmptyLines(lines) {
      var i :| 0 <= i < |ids| && ids[i] == id;
      assert lines[i] == id;
    }
    forall id | id in NonEmptyLines(lines) ensures id in ids {
      var i :| 0 <= i < |lines| && lines[i] == id;
    }
  }

  /** Discovery over the protocol's output finds exactly the printed identifiers. */
  lemma DiscoverRendered(ids: seq<string>)
    requires forall i :: 0 <= i < |ids| ==> IsIdentifier(ids[i])
    ensures NonEmptyLines(Split(Render(ids))) == set id | id in ids
  {
    SplitRender(ids);
    NonEmptyLinesWithTrailer(ids);
  }

  /**
    The set found depends only on which identifiers are printed: printing them
    in another order, or some of them more than once, finds the same set.
   */
  lemma DiscoveryIgnoresOrderAndRepeats(ids: seq<string>, others: seq<string>)
    requires forall i :: 0 <= i < |ids| ==> IsIdentifier(ids[i])
    requires forall i :: 0 <= i < |others| ==> IsIdentifier(others[i])
    requires forall id :: id in ids <==> id in others
    ensures NonEmptyLines(Split(Render(ids))) == NonEmptyLines(Split(Render(others)))
  {
    DiscoverRendered(ids);
    DiscoverRendered(others);
  }

  /** Two lists of lines with the same non-empty members name the same identifiers. */
  lemma SameNonEmptyLines(lines: seq<string>, others: seq<string>)
    requires forall line :: line != "" ==> (line in lines <==> line in others)
    ensures NonEmptyLines(lines) == NonEmptyLines(others)
  {
  }

  /** Inserting an empty line into a list of lines leaves its non-empty lines alone. */
  lemma NonEmptyLinesInsertBlank(pieces: seq<string>, k: nat)
    requires k <= |pieces|
    ensures NonEmptyLines(pieces[..k] + [""] + pieces[k..]) == NonEmptyLines(pieces)
  {
    var padded := pieces[..k] + [""] + pieces[k..];
    forall line | line != "" ensures line in padded <==> line in pieces {
      if line in padded {
        var i :| 0 <= i < |padded| && padded[i] == line;
        if i < k { assert pieces[i] == line; } else { assert pieces[i - 1] == line; }
      }
      if line in pieces {
        var i :| 0 <= i < |pieces| && pieces[i] == line;
        if i < k { assert padded[i] == line; } else { assert padded[i + 1] == line; }
      }
    }
    SameNonEmptyLines(padded, pieces);
  }

  /** Inserting an empty line keeps every line free of newlines. */
  lemma InsertBlankKeepsLines(pieces: seq<string>, k: nat)
    requires k <= |pieces|
    requires forall i :: 0 <= i < |pieces| ==> Newline !in pieces[i]
    ensures forall i :: 0 <= i < |pieces| + 1 ==> Newline !in (pieces[..k] + [""] + pieces[k..])[i]
  {
    var padded := pieces[..k] + [""] + pieces[k..];
    forall i | 0 <= i < |padded| ensures Newline !in padded[i] {
      if i > k { assert padded[i] == pieces[i - 1]; }
    }
  }

  /** An extra blank line anywhere in the output changes nothing. */
  lemma BlankLineIgnored(pieces: seq<string>, k: nat)
    requires |pieces| >= 1 && k <= |pieces|
    requires forall i :: 0 <= i < |pieces| ==> Newline !in pieces[i]
    ensures NonEmptyLines(Split(Join(pieces[..k] + [""] + pieces[k..])))
         == NonEmptyLines(Split(Join(pieces)))
  {
    var padded := pieces[..k] + [""] + pieces[k..];
    InsertBlankKeepsLines(pieces, k);
    NonEmptyLinesInsertBlank(pieces, k);
    SplitJoin(padded);
    SplitJoin(pieces);
  }
}
