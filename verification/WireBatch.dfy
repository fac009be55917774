/** The body that a batch is sent as. */
module WireBatch {
  import opened Wrappers
  import opened JsonText
  import JsonParser

  method BuildBatch(batch: seq<string>) returns (body: string)
    ensures body == "[" + Joined(batch) + "]"
  {
    body := "[";
    var first := true;
    for i := 0 to |batch|
      invariant first == (i == 0) && body == "[" + Joined(batch[..i])
    {
      assert batch[..i + 1][..i] == batch[..i];
      if !first { body := body + ","; }
      body := body + batch[i];
      first := false;
    }
    assert batch[..|batch|] == batch;
    body := body + "]";
  }

  function Joined(texts: seq<string>): string {
    if texts == [] then ""
    else
      var n := |texts| - 1;
      Joined(texts[..n]) + (if n == 0 then "" else ",") + texts[n]
  }

  /** Each text is that of the tree at the same place. */
  ghost predicate TextsOf(texts: seq<string>, trees: seq<Json>) {
    |texts| == |trees| && forall i :: 0 <= i < |texts| ==> texts[i] == Text(trees[i])
  }

  lemma {:induction false} JoinedIsItems(texts: seq<string>, trees: seq<Json>)
    requires TextsOf(texts, trees)
    ensures Joined(texts) == ItemsText(trees)
    decreases |texts|
  {
    hide Text;
    if texts != [] {
      JoinedIsItems(texts[..|texts| - 1], trees[..|trees| - 1]);
    }
  }

  /** The collector parses the body as the array of the batch's messages, in order. */
  lemma {:induction false} BatchParses(texts: seq<string>, trees: seq<Json>)
    requires TextsOf(texts, trees)
    ensures JsonParser.Parse("[" + Joined(texts) + "]") == Some(Array(trees))
  {
    JoinedIsItems(texts, trees);
    JsonParser.ParseUndoesText(Array(trees));
  }
}
