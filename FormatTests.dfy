/** The registry self-consistency tests (tests/test_readcomlin.py): every loaded format
    must reproduce its own sample, and no format with another name may accept a
    format's sample. The plugin loader is not modelled: the loaded formats are given. */
module FormatTests {
  import opened Wrappers
  import opened Records
  import opened Extraction

  /** A plugin format as the tests use it: a name, a sort key, a sample text, the result
      expected for it, and the extraction function. */
  datatype Format = Format(
    nombre: string,
    orden: int,
    sampleData: string,
    sampleRet: Option<Record>,
    getData: string -> Option<Record>)

  /** The end of a test method: it passes, or stops at its first failed assertion with
      that assertion's message. */
  datatype Outcome = Pass | Fail(message: string)

  /** Every format reproduces its own sample. */
  predicate SelfMatches(fs: seq<Format>) {
    forall k | 0 <= k < |fs| :: fs[k].getData(fs[k].sampleData) == fs[k].sampleRet
  }

  /** No format accepts the sample of a format with another name. */
  predicate NoCrossMatch(fs: seq<Format>) {
    forall a, b | 0 <= a < |fs| && 0 <= b < |fs| && fs[b].nombre != fs[a].nombre ::
      fs[b].getData(fs[a].sampleData).None?
  }

  /** No two formats share a name. */
  predicate UniqueNames(fs: seq<Format>) {
    forall a, b | 0 <= a < b < |fs| :: fs[a].nombre != fs[b].nombre
  }

  /** The positions, among the first `n`, of `[e for e in fs if e.nombre != name]`: in
      increasing order, exactly the formats named otherwise. */
  function OtherIndices(fs: seq<Format>, name: string, n: nat): (r: seq<int>)
    requires n <= |fs|
    ensures forall i | 0 <= i < |r| :: 0 <= r[i] < n && fs[r[i]].nombre != name
    ensures forall i, j | 0 <= i < j < |r| :: r[i] < r[j]
    ensures forall b | 0 <= b < n && fs[b].nombre != name :: b in r
  {
    if n == 0 then []
    else
      var r := OtherIndices(fs, name, n - 1);
      if fs[n - 1].nombre != name then r + [n - 1] else r
  }

  /** The test case; `lstFormatos` is the class attribute `_lst_formatos`. */
  class ExtractionTest {
    var lstFormatos: seq<Format>

    constructor()
      ensures lstFormatos == []
    {
      lstFormatos := [];
    }

    /** `setUpClass`: the formats in load order. The sorted copy is thrown away, so the
        order is the loader's. */
    method SetUpClass(loaded: seq<Format>)
      modifies this
      ensures lstFormatos == loaded
    {
      lstFormatos := loaded;
    }

    /** `test_each_format_versus_itself` */
    method TestEachFormatVersusItself() returns (o: Outcome)
      ensures o.Pass? <==> SelfMatches(lstFormatos)
      ensures o.Fail? ==> exists k | 0 <= k < |lstFormatos| ::
        && lstFormatos[k].getData(lstFormatos[k].sampleData) != lstFormatos[k].sampleRet
        && SelfMatches(lstFormatos[..k])
        && o.message == lstFormatos[k].nombre + " not match!"
    {
      var fs := lstFormatos;
      var i := 0;
      while i < |fs|
        invariant 0 <= i <= |fs|
        invariant forall k | 0 <= k < i :: fs[k].getData(fs[k].sampleData) == fs[k].sampleRet
      {
        var f1 := fs[i];
        if f1.sampleRet != f1.getData(f1.sampleData) {
          assert forall k | 0 <= k < i :: fs[..i][k] == fs[k];
          return Fail(f1.nombre + " not match!");
        }
        i := i + 1;
      }
      return Pass;
    }

    /** `test_each_format_versus_others` */
    method TestEachFormatVersusOthers() returns (o: Outcome)
      ensures o.Pass? <==> NoCrossMatch(lstFormatos)
      ensures o.Fail? ==> exists a, b | 0 <= a < |lstFormatos| && 0 <= b < |lstFormatos| ::
        && lstFormatos[b].nombre != lstFormatos[a].nombre
        && lstFormatos[b].getData(lstFormatos[a].sampleData).Some?
        && o.message == lstFormatos[a].nombre + " vs " + lstFormatos[b].nombre + " match!"
    {
      var fs := lstFormatos;
      var i := 0;
      while i < |fs|
        invariant 0 <= i <= |fs|
        invariant forall a, b | 0 <= a < i && 0 <= b < |fs| && fs[b].nombre != fs[a].nombre ::
          fs[b].getData(fs[a].sampleData).None?
      {
        var f1 := fs[i];
        var others := OtherIndices(fs, f1.nombre, |fs|);
        var j := 0;
        while j < |others|
          invariant 0 <= j <= |others|
          invariant forall j' | 0 <= j' < j :: fs[others[j']].getData(f1.sampleData).None?
        {
          var f2 := fs[others[j]];
          if f2.getData(f1.sampleData).Some? {
            return Fail(f1.nombre + " vs " + f2.nombre + " match!");
          }
          j := j + 1;
        }
        forall b | 0 <= b < |fs| && fs[b].nombre != f1.nombre ensures fs[b].getData(f1.sampleData).None? {
          var j' :| 0 <= j' < |others| && others[j'] == b;
        }
        i := i + 1;
      }
      return Pass;
    }
  }

  /** The formats of `fs` at the positions `ix`, in that order. */
  function Reorder(fs: seq<Format>, ix: seq<int>): seq<Format>
    requires forall i | 0 <= i < |ix| :: 0 <= ix[i] < |fs|
  {
    seq(|ix|, i requires 0 <= i < |ix| => fs[ix[i]])
  }

  /** `ix` lists every position of `fs`, in any order and any number of times; a
      permutation of the positions is one such list. */
  predicate Covers(fs: seq<Format>, ix: seq<int>) {
    && (forall i | 0 <= i < |ix| :: 0 <= ix[i] < |fs|)
    && (forall f | 0 <= f < |fs| :: f in ix)
  }

  /** Neither check depends on the order of the list, so discarding the sort changes
      nothing. */
  lemma ChecksIgnoreOrder(fs: seq<Format>, ix: seq<int>)
    requires Covers(fs, ix)
    ensures SelfMatches(fs) <==> SelfMatches(Reorder(fs, ix))
    ensures NoCrossMatch(fs) <==> NoCrossMatch(Reorder(fs, ix))
  {
    var gs := Reorder(fs, ix);
    if NoCrossMatch(gs) {
      forall a, b | 0 <= a < |fs| && 0 <= b < |fs| && fs[b].nombre != fs[a].nombre
        ensures fs[b].getData(fs[a].sampleData).None?
      {
        assert a in ix && b in ix;
        var a' :| 0 <= a' < |ix| && ix[a'] == a;
        var b' :| 0 <= b' < |ix| && ix[b'] == b;
        assert gs[a'] == fs[a] && gs[b'] == fs[b];
      }
    }
    if SelfMatches(gs) {
      forall k | 0 <= k < |fs| ensures fs[k].getData(fs[k].sampleData) == fs[k].sampleRet {
        assert k in ix;
        var k' :| 0 <= k' < |ix| && ix[k'] == k;
        assert gs[k'] == fs[k];
      }
    }
  }

  /** The formats as a pattern table for the selection loop: each format's `getData` is
      its search, and what it finds is the result. */
  function AsPatterns(fs: seq<Format>): seq<Pattern<Record, Record>> {
    seq(|fs|, i requires 0 <= i < |fs| => Pattern(fs[i].getData, (r: Record) => r))
  }

  /** When both checks pass and names are unique, first-match selection over the formats,
      in any order, on a one-page document holding a format's sample gives that format's
      expected result. */
  lemma SampleSelectsOwnFormat(fs: seq<Format>, ix: seq<int>, k: int)
    requires SelfMatches(fs) && NoCrossMatch(fs) && UniqueNames(fs)
    requires Covers(fs, ix) && 0 <= k < |fs|
    ensures Select([fs[k].sampleData], AsPatterns(Reorder(fs, ix))) == fs[k].sampleRet
  {
    var p := fs[k].sampleData;
    var gs := Reorder(fs, ix);
    var pats := AsPatterns(gs);
    assert [p][1..] == [];
    assert Select([p], pats) == SearchPage(p, pats);
    // Only the formats named like fs[k], that is fs[k] itself, give anything on its sample.
    forall j | 0 <= j < |gs| && pats[j].search(p).Some?
      ensures ix[j] == k && pats[j].search(p) == fs[k].sampleRet
    {
      var b := ix[j];
      assert gs[j] == fs[b];
      assert fs[b].nombre == fs[k].nombre;
    }
    SearchPageFirst(p, pats);
    assert k in ix;
    var kg :| 0 <= kg < |ix| && ix[kg] == k;
    assert gs[kg] == fs[k];
    if fs[k].sampleRet.Some? {
      assert pats[kg].search(p).Some?;
      var j :| 0 <= j < |pats| && pats[j].search(p).Some?
        && SearchPage(p, pats).value == pats[j].extract(pats[j].search(p).value);
    }
  }

  /** Formats are told apart by name only: two formats sharing a name are never checked
      against each other, so both checks pass although the second accepts the first's
      sample, and selection on that sample can give the second's result. */
  lemma SharedNameEscapesChecks()
    ensures var r1: Record := map[];
      var r2: Record := map["k" := Text("")];
      var f1 := Format("x", 0, "a", Some(r1), s => if s == "a" then Some(r1) else None);
      var f2 := Format("x", 1, "b", Some(r2), s => Some(r2));
      && SelfMatches([f1, f2]) && NoCrossMatch([f1, f2]) && !UniqueNames([f1, f2])
      && f2.getData(f1.sampleData).Some?
      && Select([f1.sampleData], AsPatterns([f2, f1])) != f1.sampleRet
  {
    var r1: Record := map[];
    var r2: Record := map["k" := Text("")];
    var f1 := Format("x", 0, "a", Some(r1), s => if s == "a" then Some(r1) else None);
    var f2 := Format("x", 1, "b", Some(r2), s => Some(r2));
    assert r1 != r2 by { assert "k" in r2; }
    var fs := [f1, f2];
    assert fs[0].getData(fs[0].sampleData) == Some(r1);
    assert fs[1].getData(fs[1].sampleData) == Some(r2);
    assert !UniqueNames(fs) by { assert fs[0].nombre == fs[1].nombre; }
    var pats := AsPatterns([f2, f1]);
    assert pats[0].search("a") == Some(r2) && pats[0].extract(r2) == r2;
    assert SearchPage("a", pats) == Some(r2);
    assert ["a"][1..] == [];
    assert Select(["a"], pats) == Some(r2);
  }
}
