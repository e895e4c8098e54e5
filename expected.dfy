/** `expected_str` (src/main.rs): the list of alternatives in a parse-error message,
    as in "expected a,b or c". */
module Expected {
  import opened Strings

  /** Nothing for no alternatives; `word` and the one alternative; otherwise `word`, all
      but the last joined with `,`, then ` or ` and the last. */
  function ExpectedStr(word: string, expected: seq<string>): (r: string)
    ensures |expected| == 0 ==> r == ""
    ensures |expected| == 1 ==> r == word + expected[0]
    ensures |expected| >= 1 ==> |word| <= |r| && r[..|word|] == word
    ensures |expected| >= 1 ==> var last := expected[|expected| - 1];
      |last| <= |r| - |word| && r[|r| - |last|..] == last
    ensures |expected| >= 2 ==> var last := expected[|expected| - 1];
      |last| + 4 <= |r| - |word| && r[|r| - |last| - 4..|r| - |last|] == " or "
  {
    if |expected| == 0 then ""
    else if |expected| == 1 then word + expected[0]
    else
      var n := |expected|;
      var (rest, last) := (expected[..n - 1], expected[n - 1]);
      word + Join(rest, ",") + " or " + last
  }

  /** Reading the message back: after `word`, splitting at the commas gives every
      alternative but the last two, and then "<second to last> or <last>", provided no
      alternative holds a comma. */
  lemma ExpectedStrSplits(word: string, expected: seq<string>)
    requires |expected| >= 2
    requires forall i :: 0 <= i < |expected| ==> ',' !in expected[i]
    ensures var n := |expected|;
      Split(ExpectedStr(word, expected)[|word|..], ',')
        == expected[..n - 2] + [expected[n - 2] + " or " + expected[n - 1]]
  {
    var n := |expected|;
    var rest := expected[..n - 1];
    var tail := " or " + expected[n - 1];
    var r := ExpectedStr(word, expected);
    assert r == word + (Join(rest, ",") + tail);
    assert r[|word|..] == Join(rest, ",") + tail;
    JoinAppendLast(rest, ",", tail);
    var pieces := rest[..n - 2] + [rest[n - 2] + tail];
    assert rest[..n - 2] == expected[..n - 2];
    assert rest[n - 2] + tail == expected[n - 2] + " or " + expected[n - 1];
    forall i | 0 <= i < |pieces|
      ensures ',' !in pieces[i]
    {
      if i == n - 2 {
        assert ',' !in expected[n - 2] && ',' !in expected[n - 1];
        assert ',' !in tail;
      } else {
        assert pieces[i] == expected[i];
      }
    }
    SplitJoin(pieces, ',');
  }
}
