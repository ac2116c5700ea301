/** Directory listings and the selection of files from them. */
module Listing {
  /** A listing of a directory: every file once. */
  ghost predicate Lists(listing: seq<string>, files: set<string>) {
    (forall i, j :: 0 <= i < j < |listing| ==> listing[i] != listing[j]) &&
    (forall f :: f in listing <==> f in files)
  }

  function Elements(s: seq<string>): set<string> {
    set x | x in s
  }

  /** The listed files that are wanted, in listing order. */
  function Filter(listing: seq<string>, wanted: set<string>): seq<string> {
    if listing == [] then []
    else
      var name := listing[|listing| - 1];
      Filter(listing[..|listing| - 1], wanted) + if name in wanted then [name] else []
  }

  lemma {:induction false} FilterElements(listing: seq<string>, wanted: set<string>)
    requires forall i, j :: 0 <= i < j < |listing| ==> listing[i] != listing[j]
    ensures var list := Filter(listing, wanted);
            (forall f :: f in list <==> f in listing && f in wanted) && |Elements(list)| == |list|
  {
    if listing != [] {
      var init, name := listing[..|listing| - 1], listing[|listing| - 1];
      FilterElements(init, wanted);
      var list, shorter := Filter(listing, wanted), Filter(init, wanted);
      assert listing == init + [name];
      if name in wanted {
        assert list == shorter + [name] && name !in shorter;
        assert Elements(list) == Elements(shorter) + {name};
      } else {
        assert list == shorter;
      }
    }
  }
}
