/**
 * The shape shared by the bot's output parsers: walk the output's lines in
 * order and append what each line contributes to a result list.
 */
module Lines {

  /** The contributions `pick(line)` of all `lines`, one after the other in line order. */
  function Collect(lines: seq<string>, pick: string -> seq<string>): seq<string>
    decreases |lines|
  {
    if |lines| == 0 then []
    else Collect(lines[..|lines| - 1], pick) + pick(lines[|lines| - 1])
  }

  /** One more line appends its contribution. */
  lemma CollectNext(lines: seq<string>, pick: string -> seq<string>, i: int)
    requires 0 <= i < |lines|
    ensures Collect(lines[..i + 1], pick) == Collect(lines[..i], pick) + pick(lines[i])
  {
    assert lines[..i + 1][..i] == lines[..i];
  }

  /** An item is collected iff some line contributes it. */
  lemma {:induction false} CollectMembers(lines: seq<string>, pick: string -> seq<string>, x: string)
    ensures x in Collect(lines, pick) <==> exists i :: 0 <= i < |lines| && x in pick(lines[i])
    decreases |lines|
  {
    if |lines| > 0 {
      var n := |lines| - 1;
      var p := lines[..n];
      CollectMembers(p, pick, x);
      if x in Collect(p, pick) {
        var i :| 0 <= i < |p| && x in pick(p[i]);
        assert lines[i] == p[i];
      }
      if exists i :: 0 <= i < |lines| && x in pick(lines[i]) {
        var i :| 0 <= i < |lines| && x in pick(lines[i]);
        if i < n {
          assert p[i] == lines[i];
        }
      }
    }
  }

  /** Collecting over two pieces of output gives the two results one after the other. */
  lemma {:induction false} CollectAppend(a: seq<string>, b: seq<string>, pick: string -> seq<string>)
    ensures Collect(a + b, pick) == Collect(a, pick) + Collect(b, pick)
    decreases |b|
  {
    if |b| == 0 {
      assert a + b == a;
    } else {
      var n := |b| - 1;
      var ab := a + b;
      CollectAppend(a, b[..n], pick);
      assert ab[..|ab| - 1] == a + b[..n];
      assert ab[|ab| - 1] == b[n];
      assert Collect(ab, pick) == Collect(a + b[..n], pick) + pick(b[n]);
      assert Collect(b, pick) == Collect(b[..n], pick) + pick(b[n]);
    }
  }
}
