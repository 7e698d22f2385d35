/** Format selection (`patrones` and `get_pdf_data` in readcomlin.py): the text of each
    page is searched with each pattern of the table in turn, and the first match found
    is handed to its extractor. Reading the PDF is not modelled: the page texts are given. */
module Extraction {
  import opened Wrappers
  import opened Records
  import opened ComprobanteLinea

  /** One entry of a pattern table: `search` is `re.search(pattern, text)`, `extract` the
      function the match is handed to. */
  datatype Pattern<!M, R> = Pattern(search: string -> Option<M>, extract: M -> R)

  /** The result for one page: the first pattern, in table order, that finds a match. */
  function SearchPage<M, R>(p: string, pats: seq<Pattern<M, R>>): Option<R> {
    if |pats| == 0 then None
    else match pats[0].search(p)
      case Some(m) => Some(pats[0].extract(m))
      case None => SearchPage(p, pats[1..])
  }

  /** The result for a document: the first page with a match. */
  function Select<M, R>(pages: seq<string>, pats: seq<Pattern<M, R>>): Option<R> {
    if |pages| == 0 then None
    else match SearchPage(pages[0], pats)
      case Some(r) => Some(r)
      case None => Select(pages[1..], pats)
  }

  /** `get_pdf_data` without the PDF reading: nested loops over pages and patterns,
      returning as soon as a search succeeds. */
  method GetPdfData<M, R>(pages: seq<string>, pats: seq<Pattern<M, R>>) returns (r: Option<R>)
    ensures r == Select(pages, pats)
  {
    var i := 0;
    while i < |pages|
      invariant 0 <= i <= |pages|
      invariant Select(pages, pats) == Select(pages[i..], pats)
    {
      var p := pages[i];
      var j := 0;
      while j < |pats|
        invariant 0 <= j <= |pats|
        invariant SearchPage(p, pats) == SearchPage(p, pats[j..])
      {
        var m := pats[j].search(p);
        if m.Some? {
          assert pages[i..][0] == p;
          return Some(pats[j].extract(m.value));
        }
        assert pats[j..][1..] == pats[j + 1..];
        j := j + 1;
      }
      assert pages[i..][0] == p && pages[i..][1..] == pages[i + 1..];
      i := i + 1;
    }
    return None;
  }

  /** Pattern `j` matches page `i`. */
  predicate Hit<M, R>(pages: seq<string>, pats: seq<Pattern<M, R>>, i: int, j: int) {
    0 <= i < |pages| && 0 <= j < |pats| && pats[j].search(pages[i]).Some?
  }

  /** (i, j) is the first hit: no pattern matches an earlier page, and no earlier pattern
      matches page `i`. */
  predicate IsFirstHit<M, R>(pages: seq<string>, pats: seq<Pattern<M, R>>, i: int, j: int) {
    && Hit(pages, pats, i, j)
    && (forall i', j' | 0 <= i' < i && 0 <= j' < |pats| :: !Hit(pages, pats, i', j'))
    && (forall j' | 0 <= j' < j :: !Hit(pages, pats, i, j'))
  }

  /** What the extractor of pattern `j` makes of its match on page `i`. */
  function HitResult<M, R>(pages: seq<string>, pats: seq<Pattern<M, R>>, i: int, j: int): R
    requires Hit(pages, pats, i, j)
  {
    pats[j].extract(pats[j].search(pages[i]).value)
  }

  /** A page gives nothing exactly when no pattern matches it, and otherwise the extract
      of the first pattern that does. */
  lemma {:induction false} SearchPageFirst<M, R>(p: string, pats: seq<Pattern<M, R>>)
    ensures SearchPage(p, pats).None? <==> forall j | 0 <= j < |pats| :: pats[j].search(p).None?
    ensures SearchPage(p, pats).Some? ==> exists j | 0 <= j < |pats| ::
      && pats[j].search(p).Some?
      && (forall j' | 0 <= j' < j :: pats[j'].search(p).None?)
      && SearchPage(p, pats).value == pats[j].extract(pats[j].search(p).value)
  {
    if |pats| > 0 && pats[0].search(p).None? {
      SearchPageFirst(p, pats[1..]);
      if SearchPage(p, pats).Some? {
        var j :| 0 <= j < |pats[1..]| && pats[1..][j].search(p).Some?
          && (forall j' | 0 <= j' < j :: pats[1..][j'].search(p).None?)
          && SearchPage(p, pats[1..]).value == pats[1..][j].extract(pats[1..][j].search(p).value);
        assert forall j' | 0 <= j' < j + 1 :: pats[j'].search(p).None? by {
          forall j' | 0 <= j' < j + 1 ensures pats[j'].search(p).None? {
            if j' > 0 { assert pats[j'] == pats[1..][j' - 1]; }
          }
        }
        assert pats[j + 1] == pats[1..][j];
      }
      forall j | 0 <= j < |pats| && SearchPage(p, pats).None? ensures pats[j].search(p).None? {
        if j > 0 { assert pats[j] == pats[1..][j - 1]; }
      }
    }
  }

  /** No match: `get_pdf_data` gives None exactly when no pattern matches any page. */
  lemma {:induction false} SelectNoneIff<M, R>(pages: seq<string>, pats: seq<Pattern<M, R>>)
    ensures Select(pages, pats).None? <==>
      forall i, j | 0 <= i < |pages| && 0 <= j < |pats| :: !Hit(pages, pats, i, j)
  {
    if |pages| > 0 {
      SearchPageFirst(pages[0], pats);
      SelectNoneIff(pages[1..], pats);
      if Select(pages, pats).None? {
        forall i, j | 0 <= i < |pages| && 0 <= j < |pats| ensures !Hit(pages, pats, i, j) {
          if i > 0 { assert pages[i] == pages[1..][i - 1]; assert !Hit(pages[1..], pats, i - 1, j); }
        }
      } else if SearchPage(pages[0], pats).None? {
        var i, j :| 0 <= i < |pages[1..]| && 0 <= j < |pats| && Hit(pages[1..], pats, i, j);
        assert Hit(pages, pats, i + 1, j);
      } else {
        var j :| 0 <= j < |pats| && pats[j].search(pages[0]).Some?;
        assert Hit(pages, pats, 0, j);
      }
    }
  }

  /** First match wins: the result is the extract of the first hit. */
  lemma {:induction false} SelectFirstHit<M, R>(pages: seq<string>, pats: seq<Pattern<M, R>>, i: int, j: int)
    requires IsFirstHit(pages, pats, i, j)
    ensures Select(pages, pats) == Some(HitResult(pages, pats, i, j))
  {
    if i == 0 {
      forall j' | 0 <= j' < j ensures pats[j'].search(pages[0]).None? {
        assert !Hit(pages, pats, 0, j');
      }
      SearchPageAt(pages[0], pats, j);
    } else {
      assert SearchPage(pages[0], pats).None? by {
        SearchPageFirst(pages[0], pats);
        forall j' | 0 <= j' < |pats| ensures pats[j'].search(pages[0]).None? {
          assert !Hit(pages, pats, 0, j');
        }
      }
      var rest := pages[1..];
      assert rest[i - 1] == pages[i];
      assert IsFirstHit(rest, pats, i - 1, j) by {
        forall i', j' | 0 <= i' < i - 1 && 0 <= j' < |pats| ensures !Hit(rest, pats, i', j') {
          assert rest[i'] == pages[i' + 1];
          assert !Hit(pages, pats, i' + 1, j');
        }
        var k := i - 1;
        forall j' | 0 <= j' < j ensures !Hit(rest, pats, k, j') {
          assert !Hit(pages, pats, i, j');
        }
      }
      SelectFirstHit(rest, pats, i - 1, j);
    }
  }

  /** On one page, pattern `j` wins when it matches and no earlier pattern does. */
  lemma {:induction false} SearchPageAt<M, R>(p: string, pats: seq<Pattern<M, R>>, j: int)
    requires 0 <= j < |pats| && pats[j].search(p).Some?
    requires forall j' | 0 <= j' < j :: pats[j'].search(p).None?
    ensures SearchPage(p, pats) == Some(pats[j].extract(pats[j].search(p).value))
  {
    if j > 0 {
      assert pats[1..][j - 1] == pats[j];
      forall j' | 0 <= j' < j - 1 ensures pats[1..][j'].search(p).None? {
        assert pats[1..][j'] == pats[j' + 1];
      }
      SearchPageAt(p, pats[1..], j - 1);
    }
  }

  /** Whenever there is a result, it comes from a first hit. */
  lemma SelectSomeHasFirstHit<M, R>(pages: seq<string>, pats: seq<Pattern<M, R>>)
    requires Select(pages, pats).Some?
    ensures exists i, j :: IsFirstHit(pages, pats, i, j) && Select(pages, pats) == Some(HitResult(pages, pats, i, j))
  {
    SelectNoneIff(pages, pats);
    var i, j := FirstHitOf(pages, pats);
    SelectFirstHit(pages, pats, i, j);
  }

  /** The first hit of a document in which some pattern matches some page. */
  lemma {:induction false} FirstHitOf<M, R>(pages: seq<string>, pats: seq<Pattern<M, R>>) returns (i: int, j: int)
    requires exists i, j :: Hit(pages, pats, i, j)
    ensures IsFirstHit(pages, pats, i, j)
  {
    var i0, j0 :| Hit(pages, pats, i0, j0);
    i := 0;
    while !(exists j' :: Hit(pages, pats, i, j'))
      invariant 0 <= i <= i0
      invariant forall i', j' | 0 <= i' < i && 0 <= j' < |pats| :: !Hit(pages, pats, i', j')
      decreases i0 - i
    {
      i := i + 1;
    }
    var jh :| Hit(pages, pats, i, jh);
    j := 0;
    while !Hit(pages, pats, i, j)
      invariant 0 <= j <= jh
      invariant forall j' | 0 <= j' < j :: !Hit(pages, pats, i, j')
      decreases jh - j
    {
      j := j + 1;
    }
  }

  /** The choice is determined: there is only one first hit. */
  lemma FirstHitUnique<M, R>(pages: seq<string>, pats: seq<Pattern<M, R>>, i: int, j: int, i': int, j': int)
    requires IsFirstHit(pages, pats, i, j) && IsFirstHit(pages, pats, i', j')
    ensures i == i' && j == j'
  {
  }

  /** No later page is examined: once a prefix of the pages gives a result, appending
      pages does not change it. */
  lemma {:induction false} SelectIgnoresLaterPages<M, R>(pages: seq<string>, more: seq<string>, pats: seq<Pattern<M, R>>)
    requires Select(pages, pats).Some?
    ensures Select(pages + more, pats) == Select(pages, pats)
  {
    assert (pages + more)[0] == pages[0];
    if SearchPage(pages[0], pats).None? {
      assert (pages + more)[1..] == pages[1..] + more;
      SelectIgnoresLaterPages(pages[1..], more, pats);
    }
  }

  /** No later pattern is examined on the page of the hit: replacing the patterns after
      the winning one does not change what the page gives. */
  lemma {:induction false} SearchPageIgnoresLaterPatterns<M, R>(p: string, pats: seq<Pattern<M, R>>, others: seq<Pattern<M, R>>)
    requires SearchPage(p, pats).Some?
    ensures SearchPage(p, pats + others) == SearchPage(p, pats)
  {
    assert (pats + others)[0] == pats[0];
    if pats[0].search(p).None? {
      assert (pats + others)[1..] == pats[1..] + others;
      SearchPageIgnoresLaterPatterns(p, pats[1..], others);
    }
  }

  /** `patrones`: the one pattern of readcomlin.py, its matches handed to `complinea`. The
      search is abstract; every match it yields has the groups the pattern guarantees. */
  function Patrones(search: string -> Option<MatchGroups>): seq<Pattern<MatchGroups, Record>> {
    [Pattern(search, (m: MatchGroups) => Complinea(m))]
  }

  /** With `patrones`, `get_pdf_data` gives None exactly when the pattern matches no page. */
  lemma PatronesNoneIff(search: string -> Option<MatchGroups>, pages: seq<string>)
    ensures Select(pages, Patrones(search)).None? <==> forall i | 0 <= i < |pages| :: search(pages[i]).None?
  {
    var pats := Patrones(search);
    SelectNoneIff(pages, pats);
    if Select(pages, pats).None? {
      forall i | 0 <= i < |pages| ensures search(pages[i]).None? {
        assert !Hit(pages, pats, i, 0);
      }
    }
  }

  /** Otherwise the result is what `complinea` builds from the match on the first page
      that matches. */
  lemma PatronesFirstMatch(search: string -> Option<MatchGroups>, pages: seq<string>)
    requires Select(pages, Patrones(search)).Some?
    ensures exists i | 0 <= i < |pages| ::
      && search(pages[i]).Some?
      && (forall i' | 0 <= i' < i :: search(pages[i']).None?)
      && Select(pages, Patrones(search)).value == Complinea(search(pages[i]).value)
  {
    var pats := Patrones(search);
    SelectSomeHasFirstHit(pages, pats);
    var i, j :| IsFirstHit(pages, pats, i, j) && Select(pages, pats) == Some(HitResult(pages, pats, i, j));
    assert j == 0;
    var m := search(pages[i]).value;
    assert pats[0].extract(m) == Complinea(m);
    forall i' | 0 <= i' < i ensures search(pages[i']).None? {
      assert !Hit(pages, pats, i', 0);
    }
    assert Select(pages, pats).value == Complinea(m);
  }

  /** A record found through `patrones` always has the 18 keys of `complinea`. */
  lemma PatronesRecordKeys(search: string -> Option<MatchGroups>, pages: seq<string>)
    requires Select(pages, Patrones(search)).Some?
    ensures Select(pages, Patrones(search)).value.Keys == set k | k in FieldNames
  {
    PatronesFirstMatch(search, pages);
    var i :| 0 <= i < |pages| && search(pages[i]).Some?
      && Select(pages, Patrones(search)).value == Complinea(search(pages[i]).value);
    RecordHasEighteenKeys(search(pages[i]).value);
  }
}
