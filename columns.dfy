/** Column resolution by header text: `header.findIndex(h => h.includes(…))`
    and the priority-ordered `findAmountIndex`. Indices are `int` because the
    source's "not found" is -1. */
module Columns {
  import opened Wrappers
  import opened Text

  /** `row[i]`: the cell, or `undefined` when the row is too short or the
      index is -1. */
  function Cell(row: seq<string>, i: int): (r: Option<string>)
    ensures r.Some? <==> 0 <= i < |row|
    ensures r.Some? ==> r.value == row[i]
  {
    if 0 <= i < |row| then Some(row[i]) else None
  }

  /** The header text `h` includes at least one of `needles`. */
  predicate MentionsAny(h: string, needles: seq<string>) {
    exists k :: 0 <= k < |needles| && Contains(h, needles[k])
  }

  /** `header.findIndex(h => h.includes(n1) || h.includes(n2) || …)`: the
      first cell mentioning one of `needles`, or -1 when none does. */
  function FindIndex(header: seq<string>, needles: seq<string>): (r: int)
    ensures -1 <= r < |header|
    ensures r == -1 <==> forall i :: 0 <= i < |header| ==> !MentionsAny(header[i], needles)
    ensures r != -1 ==> MentionsAny(header[r], needles)
    ensures r != -1 ==> forall i :: 0 <= i < r ==> !MentionsAny(header[i], needles)
  {
    if header == [] then -1
    else if MentionsAny(header[0], needles) then 0
    else
      var r := FindIndex(header[1..], needles);
      if r == -1 then -1 else r + 1
  }

  /** The one-needle search `header.findIndex(h => h.includes(name))`. */
  function FindColumn(header: seq<string>, name: string): (r: int)
    ensures -1 <= r < |header|
    ensures r == -1 <==> !Occurs(header, name)
    ensures r != -1 ==> Contains(header[r], name)
    ensures r != -1 ==> forall i :: 0 <= i < r ==> !Contains(header[i], name)
  {
    var r := FindIndex(header, [name]);
    assert forall h :: MentionsAny(h, [name]) <==> Contains(h, name) by {
      forall h ensures MentionsAny(h, [name]) <==> Contains(h, name) {
        if Contains(h, name) {
          assert Contains(h, [name][0]);
        }
      }
    }
    r
  }

  /** Some header cell includes `name`. */
  predicate Occurs(header: seq<string>, name: string) {
    exists i :: 0 <= i < |header| && Contains(header[i], name)
  }

  /** The amount-column candidates, in priority order. */
  const AmountCandidates: seq<string> :=
    ["مبلغ", "قيمة", "إجمالي", "مكافأة", "إيفاد", "ساعات إضافية", "القيمة", "الإضافي"]

  /** The search `findAmountIndex` makes: the first of `names` that has a
      column wins. */
  function FirstCandidate(header: seq<string>, names: seq<string>): (r: int)
    ensures -1 <= r < |header|
  {
    if names == [] then -1
    else
      var i := FindColumn(header, names[0]);
      if i != -1 then i else FirstCandidate(header, names[1..])
  }

  /** The first of `names` that occurs anywhere in the header decides and
      its leftmost cell is the answer; -1 exactly when no name occurs. */
  lemma FirstCandidateSpec(header: seq<string>, names: seq<string>)
    ensures FirstCandidate(header, names) == -1 <==>
      forall k :: 0 <= k < |names| ==> !Occurs(header, names[k])
    ensures var r := FirstCandidate(header, names);
      r != -1 ==> exists k ::
        && 0 <= k < |names|
        && (forall j :: 0 <= j < k ==> !Occurs(header, names[j]))
        && Contains(header[r], names[k])
        && (forall i :: 0 <= i < r ==> !Contains(header[i], names[k]))
  {
    FirstCandidateNone(header, names);
    FirstCandidateFound(header, names);
  }

  lemma {:induction false} FirstCandidateNone(header: seq<string>, names: seq<string>)
    ensures FirstCandidate(header, names) == -1 <==>
      forall k :: 0 <= k < |names| ==> !Occurs(header, names[k])
  {
    if names != [] && FindColumn(header, names[0]) == -1 {
      var tail := names[1..];
      FirstCandidateNone(header, tail);
      assert forall k :: 1 <= k < |names| ==> names[k] == tail[k - 1];
    }
  }

  lemma {:induction false} FirstCandidateFound(header: seq<string>, names: seq<string>)
    ensures var r := FirstCandidate(header, names);
      r != -1 ==> exists k ::
        && 0 <= k < |names|
        && (forall j :: 0 <= j < k ==> !Occurs(header, names[j]))
        && Contains(header[r], names[k])
        && (forall i :: 0 <= i < r ==> !Contains(header[i], names[k]))
  {
    if names == [] {
      return;
    }
    var r := FirstCandidate(header, names);
    if FindColumn(header, names[0]) != -1 {
      assert Contains(header[r], names[0]);
    } else if r != -1 {
      var tail := names[1..];
      FirstCandidateFound(header, tail);
      var k :| 0 <= k < |tail|
        && (forall j :: 0 <= j < k ==> !Occurs(header, tail[j]))
        && Contains(header[r], tail[k])
        && (forall i :: 0 <= i < r ==> !Contains(header[i], tail[k]));
      assert tail[k] == names[k + 1];
      assert forall j :: 0 <= j < k + 1 ==> !Occurs(header, names[j]) by {
        forall j | 0 <= j < k + 1 ensures !Occurs(header, names[j]) {
          if j > 0 {
            assert names[j] == tail[j - 1];
          }
        }
      }
    }
  }

  /** The column `findAmountIndex` picks. */
  function AmountColumn(header: seq<string>): int {
    FirstCandidate(header, AmountCandidates)
  }

  /** `findAmountIndex(headerRow)`: try each candidate in priority order and
      return the first cell holding it, or -1 when none occurs. */
  method FindAmountIndex(header: seq<string>) returns (r: int)
    ensures r == AmountColumn(header)
    ensures r == -1 <==> forall k :: 0 <= k < |AmountCandidates| ==> !Occurs(header, AmountCandidates[k])
    ensures r != -1 ==> exists k ::
      && 0 <= k < |AmountCandidates|
      && (forall j :: 0 <= j < k ==> !Occurs(header, AmountCandidates[j]))
      && Contains(header[r], AmountCandidates[k])
      && (forall i :: 0 <= i < r ==> !Contains(header[i], AmountCandidates[k]))
  {
    var names := AmountCandidates;
    FirstCandidateSpec(header, names);
    for n := 0 to |names|
      invariant FirstCandidate(header, names) == FirstCandidate(header, names[n..])
    {
      var index := FindColumn(header, names[n]);
      if index != -1 {
        return index;
      }
      assert names[n..][1..] == names[n + 1..];
    }
    return -1;
  }
}
