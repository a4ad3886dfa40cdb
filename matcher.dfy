/**
 * `find_file`: the first upload, in upload order, whose lower-cased name is
 * exactly one of the lower-cased accepted names. Uploads are never consumed.
 */
module Matcher {
  import opened Wrappers
  import opened Text
  import opened Registry

  /** An uploaded image: its file name and an opaque stand-in for its bytes. */
  datatype Upload = Upload(name: string, content: nat)

  /** `f.name.lower() in [n.lower() for n in allowed_names]`. */
  predicate Accepts(allowed: seq<string>, name: string)
    ensures Accepts(allowed, name) <==> exists i :: 0 <= i < |allowed| && Lower(name) == Lower(allowed[i])
  {
    var lowered := LowerAll(allowed);
    assert forall i :: 0 <= i < |allowed| ==> lowered[i] == Lower(allowed[i]);
    Lower(name) in lowered
  }

  /** The reference definition: the position of the first accepted upload, or None. */
  function FirstMatch(files: seq<Upload>, allowed: seq<string>): (r: Option<nat>)
    ensures r.Some? ==> r.value < |files| && Accepts(allowed, files[r.value].name)
    ensures r.Some? ==> forall j :: 0 <= j < r.value ==> !Accepts(allowed, files[j].name)
    ensures r.None? <==> forall j :: 0 <= j < |files| ==> !Accepts(allowed, files[j].name)
    decreases |files|
  {
    if files == [] then None
    else if Accepts(allowed, files[0].name) then Some(0)
    else
      match FirstMatch(files[1..], allowed)
      case None => None
      case Some(i) => Some(i + 1)
  }

  /** The loop of `find_file`, with its early return. */
  method FindFile(files: seq<Upload>, allowedNames: seq<string>) returns (r: Option<nat>)
    ensures r.Some? ==> r.value < |files| && Accepts(allowedNames, files[r.value].name)
    ensures r.Some? ==> forall j :: 0 <= j < r.value ==> !Accepts(allowedNames, files[j].name)
    ensures r.None? <==> forall j :: 0 <= j < |files| ==> !Accepts(allowedNames, files[j].name)
    ensures r == FirstMatch(files, allowedNames)
  {
    var allowed := LowerAll(allowedNames);
    for i := 0 to |files|
      invariant forall j :: 0 <= j < i ==> Lower(files[j].name) !in allowed
    {
      if Lower(files[i].name) in allowed {
        return Some(i);
      }
    }
    return None;
  }

  /** The upload order decides, and only among accepted uploads: earlier rejected uploads are skipped. */
  lemma {:induction false} FirstMatchSkipsRejected(rejected: seq<Upload>, files: seq<Upload>, allowed: seq<string>)
    requires forall j :: 0 <= j < |rejected| ==> !Accepts(allowed, rejected[j].name)
    ensures FirstMatch(rejected + files, allowed) ==
      match FirstMatch(files, allowed)
      case None => None
      case Some(i) => Some(|rejected| + i)
  {
    if rejected == [] {
      assert rejected + files == files;
    } else {
      var all := rejected + files;
      assert all[0] == rejected[0] && all[1..] == rejected[1..] + files;
      FirstMatchSkipsRejected(rejected[1..], files, allowed);
    }
  }

  /** An accepted upload placed first is the one found, whatever follows it. */
  lemma FirstMatchPrefers(u: Upload, files: seq<Upload>, allowed: seq<string>)
    requires Accepts(allowed, u.name)
    ensures FirstMatch([u] + files, allowed) == Some(0)
  {
  }

  /** Whether a name fills a page depends only on its lower-case form. */
  lemma AcceptsIgnoresCase(allowed: seq<string>, a: string, b: string)
    requires Lower(a) == Lower(b)
    ensures Accepts(allowed, a) <==> Accepts(allowed, b)
  {
  }

  /** Against the shipped tables, a name is accepted by a page exactly when its lower-case form is one of the page's names. */
  lemma AcceptsPage(page: int, name: string)
    requires IsPage(page)
    ensures Accepts(AllowedNames(page), name) <==> Lower(name) in AllowedNames(page)
  {
    AllowedNamesAreLowerCase(page);
  }

  /** A file name fills at most one page. */
  lemma AcceptedByOnePage(p: int, q: int, name: string)
    requires IsPage(p) && IsPage(q)
    requires Accepts(AllowedNames(p), name) && Accepts(AllowedNames(q), name)
    ensures p == q
  {
    AcceptsPage(p, name);
    AcceptsPage(q, name);
    if p != q {
      AliasesDisjoint(p, q, Lower(name));
    }
  }

  /** Predicate: some page of the report accepts this name. */
  predicate FillsSomePage(name: string)
  {
    exists page :: 1 <= page <= PageCount && Accepts(AllowedNames(page), name)
  }

  /** Two near misses of "launcher east.jpg", one separator and one extension off, are listed nowhere. */
  lemma NoPageListsNearMisses(page: int)
    requires IsPage(page)
    ensures "launcher_east.jpg" !in AllowedNames(page)
    ensures "launcher east.png" !in AllowedNames(page)
  {
  }

  /**
   * Matching is exact on the whole name, extension included, and blind to case:
   * "Launcher East.JPG" fills page 2, while "launcher_east.jpg" and
   * "launcher east.png" fill no page at all.
   */
  lemma WholeNameMatching()
    ensures Accepts(AllowedNames(2), "Launcher East.JPG")
    ensures !FillsSomePage("launcher_east.jpg")
    ensures !FillsSomePage("launcher east.png")
  {
    assert Lower("Launcher East.JPG") == "launcher east.jpg";
    AcceptsPage(2, "Launcher East.JPG");
    assert Lower("launcher_east.jpg") == "launcher_east.jpg";
    assert Lower("launcher east.png") == "launcher east.png";
    forall page | 1 <= page <= PageCount
      ensures !Accepts(AllowedNames(page), "launcher_east.jpg")
      ensures !Accepts(AllowedNames(page), "launcher east.png")
    {
      AcceptsPage(page, "launcher_east.jpg");
      AcceptsPage(page, "launcher east.png");
      NoPageListsNearMisses(page);
    }
  }

  /** All uploads a list of names accepts are the same upload. */
  predicate UniqueAccepted(files: seq<Upload>, allowed: seq<string>)
  {
    forall i, j :: 0 <= i < |files| && 0 <= j < |files| && Accepts(allowed, files[i].name) && Accepts(allowed, files[j].name)
      ==> files[i] == files[j]
  }

  /**
   * Whether some upload fills a page depends only on which uploads occur:
   * neither their order nor how often each one occurs matters.
   */
  lemma FilledBySameUploads(f1: seq<Upload>, f2: seq<Upload>, allowed: seq<string>)
    requires forall u :: u in f1 <==> u in f2
    ensures FirstMatch(f1, allowed).None? <==> FirstMatch(f2, allowed).None?
  {
    if FirstMatch(f1, allowed).Some? {
      var u := f1[FirstMatch(f1, allowed).value];
      assert u in f2;
      var k :| 0 <= k < |f2| && f2[k] == u;
    }
    if FirstMatch(f2, allowed).Some? {
      var v := f2[FirstMatch(f2, allowed).value];
      assert v in f1;
      var m :| 0 <= m < |f1| && f1[m] == v;
    }
  }

  /** In particular, reordering the uploads, duplicates included, does not change whether a page is filled. */
  lemma FilledReordered(f1: seq<Upload>, f2: seq<Upload>, allowed: seq<string>)
    requires multiset(f1) == multiset(f2)
    ensures FirstMatch(f1, allowed).None? <==> FirstMatch(f2, allowed).None?
  {
    forall u ensures u in f1 <==> u in f2 {
      assert u in f1 <==> u in multiset(f1);
      assert u in f2 <==> u in multiset(f2);
    }
    FilledBySameUploads(f1, f2, allowed);
  }

  /** When only one upload fits a page, reordering the uploads does not change which upload fills it. */
  lemma FirstMatchReordered(f1: seq<Upload>, f2: seq<Upload>, allowed: seq<string>)
    requires multiset(f1) == multiset(f2)
    requires UniqueAccepted(f1, allowed)
    ensures FirstMatch(f1, allowed).Some?
        ==> FirstMatch(f2, allowed).Some? && f1[FirstMatch(f1, allowed).value] == f2[FirstMatch(f2, allowed).value]
  {
    FilledReordered(f1, f2, allowed);
    var r1, r2 := FirstMatch(f1, allowed), FirstMatch(f2, allowed);
    if r2.Some? {
      var v := f2[r2.value];
      assert v in multiset(f1) by { assert v in multiset(f2); }
      var m :| 0 <= m < |f1| && f1[m] == v;
      assert Accepts(allowed, f1[m].name);
    }
  }
}
