/** The command loop of main.go: each input line, split on single spaces,
    is either `add <data>`, `mine`, or ignored. Flag parsing, the scanner
    and the printed replies are not modelled. */
module Console {
  import opened Bytes
  import opened Strings
  import opened ProofOfWork
  import opened Blockchain

  const AddCommand: Text := Ascii("add")
  const MineCommand: Text := Ascii("mine")

  /** The ledger after one input line. Stated on the line itself: with
      `cmd` the text before the first space, `add` followed by a space
      stages everything after that space (so `"add "` stages an empty
      record), a bare `add` is refused, `mine` mines whatever follows it,
      and any other word changes nothing. */
  function ExecuteLine(h: Hasher, abort: AbortOracle, l: Ledger, line: Text): (r: Ledger)
    requires Wf(l)
    ensures var i := FirstIndexOf(line, Space);
      && (line[..i] == AddCommand && i < |line| ==> r == AddData(l, line[i + 1..]))
      && (line == AddCommand ==> r == l)
      && (line[..i] == MineCommand ==> r == MinePendingData(h, abort, l))
      && (line[..i] != AddCommand && line[..i] != MineCommand ==> r == l)
    ensures Wf(r) && r.difficulty == l.difficulty
    ensures |l.blocks| <= |r.blocks| && r.blocks[..|l.blocks|] == l.blocks
    ensures Valid(h, l) ==> Valid(h, r)
  {
    var args := Split(line, Space);
    var i := FirstIndexOf(line, Space);
    SplitHead(line, Space);
    assert args[0] == line[..i];
    if args[0] == AddCommand then
      if |args| < 2 then
        assert i == |line| by {
          if i < |line| {
            SplitTailJoin(line, Space);
          }
        }
        l
      else
        assert i < |line|;
        SplitTailJoin(line, Space);
        AddData(l, Join(args[1..], Space))
    else if args[0] == MineCommand then
      MinePendingData(h, abort, l)
    else
      l
  }
}
