/** `strings.Split` and `strings.Join` of Go's standard library for a
    one-byte separator, as main.go uses them on each input line. */
module Strings {
  import opened Bytes

  /** The position of the first `sep` in `s`, or |s| when there is none. */
  function FirstIndexOf(s: Text, sep: byte): (i: nat)
    ensures i <= |s|
    ensures forall j | 0 <= j < i :: s[j] != sep
    ensures i < |s| ==> s[i] == sep
  {
    if |s| == 0 || s[0] == sep then 0 else 1 + FirstIndexOf(s[1..], sep)
  }

  /** `strings.Split(s, sep)`: the pieces between separators, in order.
      There is always at least one piece, and no piece holds `sep`. */
  function Split(s: Text, sep: byte): (r: seq<Text>)
    ensures |r| >= 1
    ensures forall k | 0 <= k < |r| :: sep !in r[k]
    decreases |s|
  {
    var i := FirstIndexOf(s, sep);
    if i == |s| then [s]
    else [s[..i]] + Split(s[i + 1..], sep)
  }

  /** `strings.Join(parts, sep)`. */
  function Join(parts: seq<Text>, sep: byte): (r: Text)
    ensures |parts| == 0 ==> r == []
    ensures |parts| >= 1 ==> parts[0] <= r
    ensures |parts| >= 2 ==> |parts[0]| < |r| && r[|parts[0]|] == sep
  {
    if |parts| == 0 then []
    else if |parts| == 1 then parts[0]
    else parts[0] + [sep] + Join(parts[1..], sep)
  }

  /** The first piece of a split is the text before the first separator. */
  lemma SplitHead(s: Text, sep: byte)
    ensures Split(s, sep)[0] == s[..FirstIndexOf(s, sep)]
  {
  }

  /** Splitting and joining on the same separator gives the text back. */
  lemma {:induction false} JoinSplit(s: Text, sep: byte)
    ensures Join(Split(s, sep), sep) == s
    decreases |s|
  {
    var i := FirstIndexOf(s, sep);
    if i < |s| {
      var head, tail := s[..i], s[i + 1..];
      SplitUnfold(s, sep);
      JoinCons(head, Split(tail, sep), sep);
      JoinSplit(tail, sep);
      assert s == head + [sep] + tail;
    } else {
      assert Split(s, sep) == [s];
    }
  }

  /** A text with a separator splits into the text before it and the split
      of the text after it. */
  lemma SplitUnfold(s: Text, sep: byte)
    requires FirstIndexOf(s, sep) < |s|
    ensures Split(s, sep) == [s[..FirstIndexOf(s, sep)]] + Split(s[FirstIndexOf(s, sep) + 1..], sep)
  {
  }

  /** Joining a first piece in front of at least one more. */
  lemma JoinCons(p: Text, rest: seq<Text>, sep: byte)
    requires |rest| >= 1
    ensures Join([p] + rest, sep) == p + [sep] + Join(rest, sep)
  {
    assert ([p] + rest)[1..] == rest;
  }

  /** Conversely, separator-free pieces joined and split again come back
      unchanged: `Split` is the only such decomposition of a text. */
  lemma {:induction false} SplitJoin(parts: seq<Text>, sep: byte)
    requires |parts| >= 1
    requires forall k | 0 <= k < |parts| :: sep !in parts[k]
    ensures Split(Join(parts, sep), sep) == parts
    decreases |parts|
  {
    var p := parts[0];
    if |parts| == 1 {
      var s := Join(parts, sep);
      assert s == p;
      FirstIndexAt(s, sep, |s|);
    } else {
      var rest := parts[1..];
      assert parts == [p] + rest;
      var tail := Join(rest, sep);
      JoinCons(p, rest, sep);
      var s := p + [sep] + tail;
      assert Join(parts, sep) == s;
      FirstIndexAt(s, sep, |p|);
      assert s[..|p|] == p;
      assert s[|p| + 1..] == tail;
      SplitJoin(rest, sep);
      assert Split(s, sep) == [p] + Split(tail, sep);
    }
  }

  /** A position that has no separator before it and a separator (or the
      end) at it is the first index. */
  lemma FirstIndexAt(s: Text, sep: byte, i: nat)
    requires i <= |s|
    requires forall j | 0 <= j < i :: s[j] != sep
    requires i < |s| ==> s[i] == sep
    ensures FirstIndexOf(s, sep) == i
  {
  }

  /** The fields after the first one, joined back, are exactly the text
      after the first separator. */
  lemma SplitTailJoin(s: Text, sep: byte)
    requires FirstIndexOf(s, sep) < |s|
    ensures |Split(s, sep)| >= 2
    ensures Join(Split(s, sep)[1..], sep) == s[FirstIndexOf(s, sep) + 1..]
  {
    var i := FirstIndexOf(s, sep);
    assert Split(s, sep)[1..] == Split(s[i + 1..], sep);
    JoinSplit(s[i + 1..], sep);
  }
}
