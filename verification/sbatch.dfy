/** Reading the job id out of what `sbatch` prints on success, with the regular
    expression `Submitted batch job (\d+)` searched anywhere in the output. */
module Sbatch {
  import opened Wrappers
  import opened Text
  import opened Squeue

  const SubmitPrefix := "Submitted batch job "

  /** The pattern matches at position `i`: the literal prefix, then at least one
      digit. */
  predicate MatchAt(s: string, i: nat) {
    i + |SubmitPrefix| < |s| && s[i..i + |SubmitPrefix|] == SubmitPrefix
    && IsDigit(s[i + |SubmitPrefix|])
  }

  /** The leftmost position at or after `from` where the pattern matches, as
      `re.search` scans. */
  function FirstMatch(s: string, from: nat): (r: Option<nat>)
    ensures r.Some? ==> from <= r.value && MatchAt(s, r.value)
    ensures forall i: nat :: from <= i && (r.None? || i < r.value) ==> !MatchAt(s, i)
    decreases |s| - from
  {
    if from + |SubmitPrefix| >= |s| then None
    else if MatchAt(s, from) then Some(from)
    else FirstMatch(s, from + 1)
  }

  /** The longest run of digits that starts `s`: what the greedy `\d+` takes. */
  function DigitRun(s: string): (r: string)
    ensures |r| <= |s| && r == s[..|r|] && AllDigits(r)
    ensures |r| == |s| || !IsDigit(s[|r|])
  {
    if |s| > 0 && IsDigit(s[0]) then
      var rest := DigitRun(s[1..]);
      assert [s[0]] + rest == s[..|rest| + 1];
      [s[0]] + rest
    else []
  }

  /** The pattern matches at `i` and nowhere before it. */
  predicate Leftmost(s: string, i: nat) {
    MatchAt(s, i) && forall j: nat :: j < i ==> !MatchAt(s, j)
  }

  /** Group 1 of the leftmost match in `text`, or `None` when nothing matches. */
  function SubmittedId(text: string): (r: Option<JobId>)
    ensures r.None? <==> forall i: nat :: !MatchAt(text, i)
    ensures r.Some? ==> |r.value| > 0 && AllDigits(r.value)
    ensures r.Some? ==> exists i: nat :: Leftmost(text, i) && r.value == DigitRun(text[i + |SubmitPrefix|..])
  {
    match FirstMatch(text, 0)
    case None => None
    case Some(i) =>
      var id := DigitRun(text[i + |SubmitPrefix|..]);
      assert id[0] == text[i + |SubmitPrefix|];
      assert Leftmost(text, i);
      Some(id)
  }

  /** The job id in the (stripped) standard output of `sbatch`. */
  function ExtractJobId(stdout: string): (r: Option<JobId>)
    ensures r.None? <==> forall i: nat :: !MatchAt(Strip(stdout), i)
    ensures r.Some? ==> |r.value| > 0 && AllDigits(r.value)
    ensures r.Some? ==> exists i: nat :: Leftmost(Strip(stdout), i)
                                         && r.value == DigitRun(Strip(stdout)[i + |SubmitPrefix|..])
  {
    SubmittedId(Strip(stdout))
  }

  lemma {:induction false} DigitRunOf(id: string, trail: string)
    requires AllDigits(id)
    requires trail == [] || !IsDigit(trail[0])
    ensures DigitRun(id + trail) == id
  {
    if |id| > 0 {
      assert (id + trail)[1..] == id[1..] + trail;
      DigitRunOf(id[1..], trail);
      assert [id[0]] + id[1..] == id;
    } else {
      assert id + trail == trail;
    }
  }

  /** The id printed after the prefix is read back whole, up to the first
      character that is not a digit. */
  lemma SubmittedIdOf(id: string, trail: string)
    requires |id| > 0 && AllDigits(id)
    requires trail == [] || !IsDigit(trail[0])
    ensures SubmittedId(SubmitPrefix + id + trail) == Some(id)
  {
    var s := SubmitPrefix + id + trail;
    assert s[..|SubmitPrefix|] == SubmitPrefix;
    assert s[|SubmitPrefix|] == id[0];
    assert MatchAt(s, 0);
    assert s[|SubmitPrefix|..] == id + trail;
    DigitRunOf(id, trail);
  }

  /** `sbatch`'s success line, `Submitted batch job <id>` and a line break, yields
      the id. */
  lemma ExtractJobIdOfLine(id: string)
    requires |id| > 0 && AllDigits(id)
    ensures ExtractJobId(SubmitPrefix + id + "\n") == Some(id)
  {
    var line := SubmitPrefix + id;
    assert !IsSpace(line[0]);
    assert line[|line| - 1] == id[|id| - 1] && IsDigit(id[|id| - 1]);
    assert AllSpace("\n");
    StripAround([], line, "\n");
    assert [] + line + "\n" == SubmitPrefix + id + "\n";
    assert line == SubmitPrefix + id + [];
    SubmittedIdOf(id, []);
  }

  /** Output with no digit after the prefix (an error message, say) yields no id. */
  lemma NoIdWithoutDigits(stdout: string)
    requires forall k :: 0 <= k < |stdout| ==> !IsDigit(stdout[k])
    ensures ExtractJobId(stdout) == None
  {
  }
}
