/** The structured result of an extraction: a mapping from field name to scalar. */
module Records {
  /** A field value: a piece of the matched text, or an amount, kept as the
      dot-decimal text that is converted to a number. */
  datatype Value = Text(text: string) | Number(literal: string)

  type Record = map<string, Value>

  /** The keys of a list of items, in order. */
  function Keys(items: seq<(string, Value)>): seq<string> {
    seq(|items|, i requires 0 <= i < |items| => items[i].0)
  }

  /** The items of a display whose keys and values are listed separately, position by
      position. */
  function Zip(ks: seq<string>, vs: seq<Value>): (items: seq<(string, Value)>)
    requires |ks| == |vs|
    ensures Keys(items) == ks
  {
    seq(|ks|, i requires 0 <= i < |ks| => (ks[i], vs[i]))
  }

  predicate Distinct(ks: seq<string>) {
    forall i, j | 0 <= i < j < |ks| :: ks[i] != ks[j]
  }

  /** A dictionary display `{k1: v1, ..., kn: vn}`: items are entered left to right,
      a later repeated key overriding an earlier one. */
  function DictOf(items: seq<(string, Value)>): (r: Record)
    ensures forall k :: k in r <==> k in Keys(items)
  {
    if |items| == 0 then map[]
    else
      var last := items[|items| - 1];
      assert Keys(items) == Keys(items[..|items| - 1]) + [last.0];
      DictOf(items[..|items| - 1])[last.0 := last.1]
  }

  /** With distinct keys every item can be looked up under its key. */
  lemma {:induction false} DictOfAt(items: seq<(string, Value)>, i: nat)
    requires Distinct(Keys(items)) && i < |items|
    ensures items[i].0 in DictOf(items) && DictOf(items)[items[i].0] == items[i].1
  {
    var n := |items| - 1;
    if i < n {
      var front := items[..n];
      assert Keys(front) == Keys(items)[..n];
      DictOfAt(front, i);
      assert Keys(items)[i] != Keys(items)[n];
    }
  }

  /** With distinct keys the dictionary has one entry per item. */
  lemma {:induction false} DictOfSize(items: seq<(string, Value)>)
    requires Distinct(Keys(items))
    ensures |DictOf(items)| == |items|
  {
    if |items| > 0 {
      var n := |items| - 1;
      var front := items[..n];
      assert Keys(front) == Keys(items)[..n];
      DictOfSize(front);
      assert items[n].0 !in DictOf(front) by {
        assert items[n].0 !in Keys(front) by {
          forall j | 0 <= j < n ensures Keys(front)[j] != items[n].0 {
            assert Keys(items)[j] != Keys(items)[n];
          }
        }
      }
    }
  }
}
