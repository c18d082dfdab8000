/** translate-docs.js: lines sent in batches, and the translations put back line by line. */
module TranslateFile {
  import opened Text
  import opened Numbers
  import opened MaskTool

  /**
   * What the engine answers to one batch after the other; None is a failed request, as is an answer that is missing.
   */
  type Replies = seq<Option<seq<string>>>

  function First(replies: Replies): Option<seq<string>> {
    if replies == [] then None else replies[0]
  }

  function Later(replies: Replies): Replies {
    if replies == [] then [] else replies[1..]
  }

  /** The answer to line i of n: from its own batch, at its own place, if that batch has as many answers as lines. */
  function OwnAnswer(n: nat, size: nat, replies: Replies, i: nat): Option<string>
    requires size > 0 && i < n
    decreases n
  {
    if i >= size then OwnAnswer(n - size, size, Later(replies), i - size)
    else if First(replies).Some? && |First(replies).value| == Least(size, n) then Some(First(replies).value[i])
    else None
  }

  function Answers(n: nat, size: nat, replies: Replies): (r: seq<Option<string>>)
    requires size > 0
    ensures |r| == n
  {
    seq(n, i requires 0 <= i < n => OwnAnswer(n, size, replies, i))
  }

  /** translateBatch: a batch answered with the wrong number of lines counts for nothing and moves nothing. */
  method TranslateBatch(texts: seq<string>, size: nat, replies: Replies) returns (out: seq<Option<string>>)
    requires size > 0
    ensures out == Answers(|texts|, size, replies)
  {
    out := [];
    var b, rest := 0, replies;
    while b < |texts|
      invariant b <= |texts| && out + Answers(|texts| - b, size, rest) == Answers(|texts|, size, replies)
    {
      var chunk := texts[b..b + Least(size, |texts| - b)];
      var answers := TakeAnswers(chunk, First(rest));
      FirstBatch(|texts| - b, size, rest, answers);
      out, b, rest := out + answers, b + |chunk|, Later(rest);
    }
    assert out + [] == out;
  }

  lemma FirstBatch(n: nat, size: nat, replies: Replies, answers: seq<Option<string>>)
    requires size > 0 && |answers| == Least(size, n)
    requires First(replies).Some? && |First(replies).value| == |answers| ==>
               forall i | 0 <= i < |answers| :: answers[i] == Some(First(replies).value[i])
    requires (First(replies).Some? && |First(replies).value| == |answers|) ||
              forall i | 0 <= i < |answers| :: answers[i] == None
    ensures Answers(n, size, replies) == answers + Answers(n - |answers|, size, Later(replies))
  {
  }

  method TakeAnswers(chunk: seq<string>, reply: Option<seq<string>>) returns (answers: seq<Option<string>>)
    ensures |answers| == |chunk|
    ensures reply.Some? && |reply.value| == |chunk| ==>
              forall i | 0 <= i < |chunk| :: answers[i] == Some(reply.value[i])
    ensures (reply.Some? && |reply.value| == |chunk|) || forall i | 0 <= i < |chunk| :: answers[i] == None
  {
    var usable := reply.Some? && |reply.value| == |chunk|;
    answers := [];
    for k := 0 to |chunk|
      invariant |answers| == k
      invariant forall i | 0 <= i < k :: answers[i] == if usable then Some(reply.value[i]) else None
    {
      answers := answers + [if usable then Some(reply.value[k]) else None];
    }
  }

  /** What may stand where a line stood: the line, or an accepted translation of it behind its own prefix. */
  ghost predicate MayBecome(line: string, after: string, p: Patterns) {
    after == line ||
    exists translation ::
      var m := Protected(line, p);
      var r := RestoreFrom(translation, m.slots);
      IsOk(r, m.slots) && p.prefix(line) <= |line| && after == line[..p.prefix(line)] + r.text
  }

  /** What becomes of one answer. */
  datatype Fate = NoAnswer | NotRestored | Unsafe | Applied(line: string)

  ghost function FateOf(line: string, answer: Option<string>, p: Patterns, isSafe: (string, string) -> bool): Fate
    requires p.prefix(line) <= |line|
  {
    if answer.None? || answer.value == "" then NoAnswer
    else
      var m := Protected(line, p);
      var r := RestoreFrom(answer.value, m.slots);
      if !IsOk(r, m.slots) then NotRestored
      else
        var rebuilt := line[..p.prefix(line)] + r.text;
        if !isSafe(line, rebuilt) then Unsafe else Applied(rebuilt)
  }

  ghost function Fates(lines: seq<string>, chosen: seq<nat>, results: seq<Option<string>>, p: Patterns,
                       isSafe: (string, string) -> bool): (r: seq<Fate>)
    requires |results| == |chosen| && Fits(p) && forall k | 0 <= k < |chosen| :: chosen[k] < |lines|
    ensures |r| == |chosen|
    ensures forall k | 0 <= k < |r| :: r[k] == FateOf(lines[chosen[k]], results[k], p, isSafe)
  {
    seq(|chosen|, k requires 0 <= k < |chosen| => FateOf(lines[chosen[k]], results[k], p, isSafe))
  }

  ghost predicate Fits(p: Patterns) {
    forall line :: p.prefix(line) <= |line|
  }

  lemma ProperFits(p: Patterns)
    requires Proper(p)
    ensures Fits(p)
  {
    hide Proper;
    forall line ensures p.prefix(line) <= |line| { PrefixFits(line, p); }
  }

  ghost function AppliedAt(fates: seq<Fate>): set<nat> {
    set k: nat | k < |fates| && fates[k].Applied?
  }

  lemma AppliedMore(fates: seq<Fate>, k: nat)
    requires k < |fates|
    ensures |AppliedAt(fates[..k + 1])| == |AppliedAt(fates[..k])| + if fates[k].Applied? then 1 else 0
    ensures AppliedAt(fates[..0]) == {}
  {
    var before, now := fates[..k], fates[..k + 1];
    assert now[k] == fates[k] && forall i :: 0 <= i < k ==> now[i] == before[i];
    assert AppliedAt(now) == AppliedAt(before) + if fates[k].Applied? then {k} else {};
    assert k !in AppliedAt(before);
  }

  /** An accepted translation stands behind its line's own prefix. */
  lemma AppliedMayBecome(line: string, answer: Option<string>, p: Patterns, isSafe: (string, string) -> bool)
    requires p.prefix(line) <= |line| && FateOf(line, answer, p, isSafe).Applied?
    ensures MayBecome(line, FateOf(line, answer, p, isSafe).line, p)
  {
    hide Protected, RestoreFrom, IsOk;
  }

  /** translateFile's last loop: chosen lines are replaced where the translation restores and passes the line check. */
  method PutBackLines(lines: seq<string>, chosen: seq<nat>, results: seq<Option<string>>, p: Patterns,
    isSafe: (string, string) -> bool)
    returns (out: seq<string>, applied: nat)
    requires Proper(p) && |results| == |chosen|
    requires forall k | 0 <= k < |chosen| :: chosen[k] < |lines|
    requires forall j, k :: 0 <= j < k < |chosen| ==> chosen[j] != chosen[k]
    ensures |out| == |lines| && forall i | 0 <= i < |lines| :: MayBecome(lines[i], out[i], p)
    ensures forall i | 0 <= i < |lines| && i !in chosen :: out[i] == lines[i]
    ensures Fits(p) && forall k | 0 <= k < |chosen| ::
              var fate := FateOf(lines[chosen[k]], results[k], p, isSafe);
              out[chosen[k]] == if fate.Applied? then fate.line else lines[chosen[k]]
    ensures Fits(p) && applied == |AppliedAt(Fates(lines, chosen, results, p, isSafe))|
  {
    hide Protected, RestoreFrom, IsOk, Proper, AppliedAt, MayBecome, Fits;
    ProperFits(p);
    ghost var fates := Fates(lines, chosen, results, p, isSafe);
    out, applied := lines, 0;
    NoneApplied();
    assert fates[..0] == [];
    for k := 0 to |chosen|
      invariant |out| == |lines|
      invariant forall i | 0 <= i < |lines| && i !in chosen[..k] :: out[i] == lines[i]
      invariant forall j | 0 <= j < k :: out[chosen[j]] == if fates[j].Applied? then fates[j].line else lines[chosen[j]]
      invariant applied == |AppliedAt(fates[..k])|
    {
      assert chosen[..k + 1] == chosen[..k] + [chosen[k]];
      AppliedMore(fates, k);
      var i := chosen[k];
      assert i !in chosen[..k];
      if results[k].None? || results[k].value == "" { continue; }
      var prefix, m := Protect(out[i], p);
      var text, ok := Restore(results[k].value, m.slots);
      PrefixFits(out[i], p);
      assert prefix == out[i][..p.prefix(out[i])];
      if !ok || !isSafe(out[i], prefix + text) { continue; }
      out := out[i := prefix + text];
      applied := applied + 1;
    }
    assert chosen[..|chosen|] == chosen && fates[..|chosen|] == fates;
    forall i | 0 <= i < |lines|
      ensures MayBecome(lines[i], out[i], p) { Became(lines, chosen, results, p, isSafe, out, i); }
  }

  lemma NoneApplied()
    ensures AppliedAt([]) == {}
  {
  }

  lemma Became(lines: seq<string>, chosen: seq<nat>, results: seq<Option<string>>, p: Patterns,
               isSafe: (string, string) -> bool, out: seq<string>, i: nat)
    requires |results| == |chosen| && Fits(p) && (forall k | 0 <= k < |chosen| :: chosen[k] < |lines|) && i < |lines|
    requires |out| == |lines| && (i !in chosen ==> out[i] == lines[i])
    requires forall k | 0 <= k < |chosen| ::
               var fate := FateOf(lines[chosen[k]], results[k], p, isSafe);
               out[chosen[k]] == if fate.Applied? then fate.line else lines[chosen[k]]
    ensures MayBecome(lines[i], out[i], p)
  {
    hide FateOf, Protected, RestoreFrom, IsOk, Proper;
    if i in chosen {
      var k :| 0 <= k < |chosen| && chosen[k] == i;
      if FateOf(lines[i], results[k], p, isSafe).Applied? { AppliedMayBecome(lines[i], results[k], p, isSafe); }
    }
  }
}
