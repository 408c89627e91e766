/**
  Splitting process output into lines, as Python's `str.split('\n')` does:
  the pieces between consecutive newlines, always at least one piece, with an
  empty piece before a leading newline, between two adjacent newlines and after
  a trailing newline.
 */
module Lines {

  const Newline: char := '\n'

  /** `s.split('\n')`: one piece more than `s` has newlines, none containing a newline. */
  function Split(s: string): (pieces: seq<string>)
    ensures |pieces| == multiset(s)[Newline] + 1
    ensures forall i :: 0 <= i < |pieces| ==> Newline !in pieces[i]
    decreases |s|
  {
    if s == [] then [""]
    else
      var rest := Split(s[1..]);
      assert s == [s[0]] + s[1..];
      if s[0] == Newline then [""] + rest
      else [[s[0]] + rest[0]] + rest[1..]
  }

  /** `'\n'.join(pieces)`, the inverse of Split. */
  function Join(pieces: seq<string>): (s: string)
    requires |pieces| >= 1
    decreases |pieces|
  {
    if |pieces| == 1 then pieces[0]
    else pieces[0] + [Newline] + Join(pieces[1..])
  }

  /** Prefixing a character to the first piece prefixes it to the joined text. */
  lemma JoinPrefixFirst(c: char, pieces: seq<string>)
    requires |pieces| >= 1
    ensures Join([[c] + pieces[0]] + pieces[1..]) == [c] + Join(pieces)
  {
    var q := [[c] + pieces[0]] + pieces[1..];
    if |pieces| > 1 {
      assert q[1..] == pieces[1..];
    }
  }

  /** Joining the pieces gives back the text that was split. */
  lemma {:induction false} JoinSplit(s: string)
    ensures Join(Split(s)) == s
    decreases |s|
  {
    if s != [] {
      var rest := Split(s[1..]);
      JoinSplit(s[1..]);
      assert s == [s[0]] + s[1..];
      if s[0] != Newline {
        JoinPrefixFirst(s[0], rest);
      } else {
        assert ([""] + rest)[1..] == rest;
      }
    }
  }

  /** Text without a newline is a single piece. */
  lemma {:induction false} SplitSingle(p: string)
    requires Newline !in p
    ensures Split(p) == [p]
    decreases |p|
  {
    if p != [] {
      assert p == [p[0]] + p[1..];
      SplitSingle(p[1..]);
    }
  }

  /** A newline-free first piece followed by a newline splits off on its own. */
  lemma {:induction false} SplitAfterPiece(p: string, t: string)
    requires Newline !in p
    ensures Split(p + [Newline] + t) == [p] + Split(t)
    decreases |p|
  {
    var s := p + [Newline] + t;
    if p == [] {
      assert s[1..] == t;
    } else {
      assert p == [p[0]] + p[1..];
      assert s[1..] == p[1..] + [Newline] + t;
      SplitAfterPiece(p[1..], t);
    }
  }

  /** Splitting is the inverse of joining newline-free pieces. */
  lemma {:induction false} SplitJoin(pieces: seq<string>)
    requires |pieces| >= 1
    requires forall i :: 0 <= i < |pieces| ==> Newline !in pieces[i]
    ensures Split(Join(pieces)) == pieces
    decreases |pieces|
  {
    if |pieces| == 1 {
      SplitSingle(pieces[0]);
    } else {
      SplitAfterPiece(pieces[0], Join(pieces[1..]));
      SplitJoin(pieces[1..]);
      assert pieces == [pieces[0]] + pieces[1..];
    }
  }

  /** A trailing newline adds exactly one empty piece at the end. */
  lemma {:induction false} SplitTrailingNewline(s: string)
    ensures Split(s + [Newline]) == Split(s) + [""]
    decreases |s|
  {
    var t := s + [Newline];
    if s == [] {
      assert t[1..] == [];
    } else {
      assert t[1..] == s[1..] + [Newline];
      SplitTrailingNewline(s[1..]);
      var rest := Split(s[1..]);
      if s[0] != Newline {
        assert (rest + [""])[0] == rest[0];
        assert (rest + [""])[1..] == rest[1..] + [""];
      }
    }
  }
}
