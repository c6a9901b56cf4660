/** The sidebar next to the catalog: the category list it offers, which of its
    sections is unfolded, and the search box whose term it hands to the catalog. */
module Sidebar {
  import opened Seqs
  import opened Products

  /** `products.map(p => p.categorias)` */
  function Categories(products: seq<CatalogItem>): (cats: seq<Option<string>>)
    ensures |cats| == |products|
    ensures forall i :: 0 <= i < |products| ==> cats[i] == products[i].categorias
  {
    seq(|products|, i requires 0 <= i < |products| => products[i].categorias)
  }

  /** `.filter(Boolean)` on a list of categories, which are then plain strings. */
  function TruthyValues(s: seq<Option<string>>): (r: seq<string>)
    ensures forall c :: c in r <==> c != "" && Some(c) in s
    decreases |s|
  {
    if s == [] then []
    else
      var last := s[|s| - 1];
      assert forall x :: x in s <==> x in s[..|s| - 1] || x == last;
      TruthyValues(s[..|s| - 1]) + (if IsTruthy(last) then [last.value] else [])
  }

  /** The truthy entries come out exactly as the generic filter keeps them: every copy, in
      their original order. */
  lemma {:induction false} TruthyValuesFilter(s: seq<Option<string>>)
    ensures Wrap(TruthyValues(s)) == Filter(s, IsTruthy)
    decreases |s|
  {
    if s != [] {
      var init, last := s[..|s| - 1], s[|s| - 1];
      assert s == init + [last];
      TruthyValuesFilter(init);
      var tail := if IsTruthy(last) then [last.value] else [];
      assert TruthyValues(s) == TruthyValues(init) + tail;
      assert Wrap(tail) == Filter([last], IsTruthy) by {
        assert [last][1..] == [];
      }
      FilterAppend(init, [last], IsTruthy);
      WrapAppend(TruthyValues(init), tail);
    }
  }

  function Wrap(r: seq<string>): (w: seq<Option<string>>)
    ensures |w| == |r|
    ensures forall i :: 0 <= i < |r| ==> w[i] == Some(r[i])
  {
    seq(|r|, i requires 0 <= i < |r| => Some(r[i]))
  }

  lemma WrapAppend(a: seq<string>, b: seq<string>)
    ensures Wrap(a + b) == Wrap(a) + Wrap(b)
  {
  }

  /** The categories left by de-duplicating and then dropping falsy entries are
      distinct and come in the order of their first occurrence. */
  lemma {:induction false} TruthyDistinctFacts(cats: seq<Option<string>>)
    ensures var r := TruthyValues(Distinct(cats));
      && NoDuplicates(r)
      && (forall x :: x in Wrap(r) ==> x in cats)
      && InFirstOccurrenceOrder(Wrap(r), cats)
    decreases |cats|
  {
    var r := TruthyValues(Distinct(cats));
    forall x | x in Wrap(r) ensures x in cats {
      var i :| 0 <= i < |Wrap(r)| && Wrap(r)[i] == x;
      assert r[i] in r;
    }
    if cats != [] {
      var init, last := cats[..|cats| - 1], cats[|cats| - 1];
      assert cats == init + [last];
      TruthyDistinctFacts(init);
      var d := Distinct(init);
      var r0 := TruthyValues(d);
      forall x | x in Wrap(r0) ensures x in init {
        var i :| 0 <= i < |Wrap(r0)| && Wrap(r0)[i] == x;
        assert r0[i] in r0;
      }
      SnocKeepsOrder(Wrap(r0), init, last);
      if last in d {
        assert Distinct(cats) == d;
      } else {
        assert last !in init;
        var d' := d + [last];
        assert Distinct(cats) == d';
        assert d'[..|d'| - 1] == d;
        if IsTruthy(last) {
          assert r == r0 + [last.value];
          assert Wrap(r) == Wrap(r0) + [last];
          assert last.value !in r0;
          SnocNewLast(Wrap(r0), init, last);
        } else {
          assert r == r0;
        }
      }
    }
  }

  /** `[...new Set(products.map(p => p.categorias))].filter(Boolean)` */
  function UniqueCategories(products: seq<CatalogItem>): (r: seq<string>)
    ensures NoDuplicates(r)
    ensures forall c :: c in r <==> c != "" && exists i :: 0 <= i < |products| && products[i].categorias == Some(c)
    ensures forall x :: x in Wrap(r) ==> x in Categories(products)
    ensures InFirstOccurrenceOrder(Wrap(r), Categories(products))
  {
    var cats := Categories(products);
    TruthyDistinctFacts(cats);
    assert forall c :: Some(c) in cats <==> exists i :: 0 <= i < |products| && products[i].categorias == Some(c);
    TruthyValues(Distinct(cats))
  }

  /** `openSection === section ? null : section` */
  function Toggled(openSection: Option<string>, section: string): (r: Option<string>)
    ensures r == None <==> openSection == Some(section)
    ensures r != None ==> r == Some(section)
  {
    if openSection == Some(section) then None else Some(section)
  }

  /** Toggling a section twice, starting closed or on that section, restores the state. */
  lemma ToggleTwice(openSection: Option<string>, section: string)
    requires openSection == None || openSection == Some(section)
    ensures Toggled(Toggled(openSection, section), section) == openSection
  {
  }

  /** The sidebar's own state: the text in the search box and the unfolded section. */
  class SidebarState {
    var searchTerm: string
    var openSection: Option<string>

    constructor ()
      ensures searchTerm == "" && openSection == None
    {
      searchTerm := "";
      openSection := None;
    }

    /** The search box's `onChange`. */
    method SetSearchTerm(term: string)
      modifies this
      ensures searchTerm == term && openSection == old(openSection)
    {
      searchTerm := term;
    }

    /** `toggleSection` */
    method ToggleSection(section: string)
      modifies this
      ensures openSection == Toggled(old(openSection), section)
      ensures searchTerm == old(searchTerm)
    {
      openSection := if openSection == Some(section) then None else Some(section);
    }

    /** `handleSubmit`: the term handed to `onSearch`, which is the search box's text as it stands. */
    method Submit() returns (term: string)
      ensures term == searchTerm
    {
      term := searchTerm;
    }
  }
}
