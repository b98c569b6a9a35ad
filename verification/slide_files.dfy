/**
 * Naming and ordering of the exported slide images: the export writes
 * `slide1.png` .. `slideN.png`, the files are renamed to `1.png` .. `N.png` in
 * the order of the number between `slide` and `.png`, and the presentation
 * reads them back ordered by the number in the file stem.
 */
module SlideFiles {
  import opened Results
  import opened Decimal
  import opened Text
  import opened KeySort

  const ExportPrefix: string := "slide"
  const PngSuffix: string := ".png"

  /** The name slide `i` is exported under, `f"slide{i}.png"`. */
  function SlideName(i: nat): string {
    ExportPrefix + ShowNat(i) + PngSuffix
  }

  /** The name the `idx`-th slide is renamed to, `f"{idx}.png"`. */
  function IndexName(idx: nat): string {
    ShowNat(idx) + PngSuffix
  }

  /** The files the export loop writes, for slides 1 .. n in order. */
  function ExportNames(n: nat): (r: seq<string>)
    ensures |r| == n
  {
    seq(n, i requires 0 <= i < n => SlideName(i + 1))
  }

  /** The files the renaming produces, `1.png` .. `n.png` in order. */
  function IndexNames(n: nat): (r: seq<string>)
    ensures |r| == n
  {
    seq(n, i requires 0 <= i < n => IndexName(i + 1))
  }

  /** The listing filter `f.lower().endswith('.png')`. */
  predicate IsPng(name: string) {
    EndsWith(Lower(name), PngSuffix)
  }

  /** The PNG files of a directory listing, in listing order. */
  function PngNames(listing: seq<string>): (r: seq<string>)
    ensures forall x :: x in r <==> x in listing && IsPng(x)
    ensures (forall k :: 0 <= k < |listing| ==> IsPng(listing[k])) ==> r == listing
  {
    if |listing| == 0 then
      []
    else
      var rest := PngNames(listing[1..]);
      assert listing == [listing[0]] + listing[1..];
      (if IsPng(listing[0]) then [listing[0]] else []) + rest
  }

  /** Filtering a listing piecewise: the PNG names keep their listing order and multiplicity. */
  lemma {:induction false} PngNamesConcat(a: seq<string>, b: seq<string>)
    ensures PngNames(a + b) == PngNames(a) + PngNames(b)
    decreases |a|
  {
    if |a| == 0 {
      assert a + b == b;
    } else {
      assert (a + b)[0] == a[0];
      assert (a + b)[1..] == a[1..] + b;
      PngNamesConcat(a[1..], b);
    }
  }

  /** A single name passes the filter exactly when it ends in `.png` in any letter case. */
  lemma PngNamesSingle(name: string)
    ensures PngNames([name]) == if IsPng(name) then [name] else []
  {
    assert [name][1..] == [];
  }

  /** The rename sort key `int(name.split('slide')[1].split('.png')[0])`. */
  function ExportKey(name: string): Option<int> {
    var parts := Split(name, ExportPrefix);
    if |parts| < 2 then None else ParseInt(Split(parts[1], PngSuffix)[0])
  }

  /** The read-back sort key `int(os.path.splitext(name)[0])`. */
  function IndexKey(name: string): Option<int> {
    ParseInt(Root(name))
  }

  /** One `os.rename(source, target)` within the slide folder. */
  datatype Rename = Rename(source: string, target: string)

  /** Why preparing the slide folder fails. */
  datatype ExportError =
    | CountMismatch(expected: nat, found: nat)
    | UnparsableName(name: string)

  function Sources(plan: seq<Rename>): (r: seq<string>)
    ensures |r| == |plan|
  {
    seq(|plan|, i requires 0 <= i < |plan| => plan[i].source)
  }

  /**
   * The renames performed after export: the PNG files must number exactly
   * `slideCount`, every one must have a rename key, and they are renamed to
   * `1.png`, `2.png`, .. in increasing key order.
   */
  function RenamePlan(listing: seq<string>, slideCount: nat): (r: Result<seq<Rename>, ExportError>)
    ensures r.Failure? && r.error.CountMismatch? <==> |PngNames(listing)| != slideCount
    ensures r.Failure? && r.error.CountMismatch? ==> r.error == CountMismatch(slideCount, |PngNames(listing)|)
    ensures r.Success? <==> |PngNames(listing)| == slideCount && Keyed(PngNames(listing), ExportKey)
    ensures r.Failure? && r.error.UnparsableName? ==>
              r.error.name in PngNames(listing) && ExportKey(r.error.name).None?
    ensures r.Success? ==>
              && |r.value| == slideCount
              && (forall i :: 0 <= i < slideCount ==> r.value[i].target == IndexName(i + 1))
              && multiset(Sources(r.value)) == multiset(PngNames(listing))
              && Keyed(Sources(r.value), ExportKey)
              && SortedBy(Sources(r.value), ExportKey)
  {
    var pngs := PngNames(listing);
    if |pngs| != slideCount then
      Failure(CountMismatch(slideCount, |pngs|))
    else
      match FirstUnkeyed(pngs, ExportKey)
      case Some(bad) => Failure(UnparsableName(bad))
      case None => Success(Numbered(Sort(pngs, ExportKey)))
  }

  /** Rename the `i`-th name of `sorted` to `{i + 1}.png`. */
  function Numbered(sorted: seq<string>): (plan: seq<Rename>)
    ensures Sources(plan) == sorted
    ensures |plan| == |sorted|
    ensures forall i :: 0 <= i < |plan| ==> plan[i].target == IndexName(i + 1)
  {
    var plan := seq(|sorted|, i requires 0 <= i < |sorted| => Rename(sorted[i], IndexName(i + 1)));
    assert Sources(plan) == sorted;
    plan
  }

  /**
   * The slide image list `pathImages`: the PNG files of the folder ordered by
   * the number in their stem. A stem that is not a number raises; its name is
   * the failure.
   */
  function SlideOrder(listing: seq<string>): (r: Result<seq<string>, string>)
    ensures r.Success? <==> Keyed(PngNames(listing), IndexKey)
    ensures r.Failure? ==> r.error in PngNames(listing) && IndexKey(r.error).None?
    ensures r.Success? ==>
              && multiset(r.value) == multiset(PngNames(listing))
              && Keyed(r.value, IndexKey)
              && SortedBy(r.value, IndexKey)
  {
    var pngs := PngNames(listing);
    match FirstUnkeyed(pngs, IndexKey)
    case Some(bad) => Failure(bad)
    case None => Success(Sort(pngs, IndexKey))
  }

  // ----- Keys of the generated names -----

  lemma NotFoundWithoutFirstChar(s: string, sep: string)
    requires 1 <= |sep|
    requires forall k :: 0 <= k < |s| ==> s[k] != sep[0]
    ensures Find(s, sep).None?
  {
  }

  lemma NotAtDigit(s: string, j: nat)
    requires j < |s| && IsDigit(s[j])
    ensures !OccursAt(s, PngSuffix, j)
  {
    if j + 4 <= |s| {
      assert s[j..j + 4][0] == s[j];
    }
  }

  lemma FoundAfterDigits(d: string)
    requires AllDigits(d)
    ensures Find(d + PngSuffix, PngSuffix) == Some(|d|)
  {
    var s := d + PngSuffix;
    assert s[|d|..|d| + 4] == PngSuffix;
    assert OccursAt(s, PngSuffix, |d|);
    forall j | 0 <= j < |d| ensures !OccursAt(s, PngSuffix, j) {
      NotAtDigit(s, j);
    }
  }

  /** The rename key of `slide{i}.png` is `i`. */
  lemma ExportKeyOfSlideName(i: nat)
    ensures ExportKey(SlideName(i)) == Some(i)
  {
    var d := ShowNat(i);
    var name := SlideName(i);
    var tail := d + PngSuffix;
    assert name[0..5] == ExportPrefix;
    assert OccursAt(name, ExportPrefix, 0);
    assert Find(name, ExportPrefix) == Some(0);
    assert name[5..] == tail;
    NotFoundWithoutFirstChar(tail, ExportPrefix);
    assert Split(tail, ExportPrefix) == [tail];
    assert Split(name, ExportPrefix) == [name[..0]] + [tail];
    FoundAfterDigits(d);
    assert tail[|d| + 4..] == "";
    assert Split("", PngSuffix) == [""];
    assert Split(tail, PngSuffix) == [d] + [""];
    ParseShowNat(i);
  }

  /** The read-back key of `{idx}.png` is `idx`. */
  lemma IndexKeyOfIndexName(idx: nat)
    ensures IndexKey(IndexName(idx)) == Some(idx)
  {
    var d := ShowNat(idx);
    var name := IndexName(idx);
    assert name[|d|] == '.';
    var v := LastIndexOf(name, '.').value;
    assert v == |d|;
    assert name[0] == d[0] && d[0] != '.';
    assert name[..|d|] == d;
    ParseShowNat(idx);
  }

  lemma ExportNamesArePng(n: nat)
    ensures forall k :: 0 <= k < n ==> IsPng(ExportNames(n)[k])
  {
    forall k | 0 <= k < n ensures IsPng(ExportNames(n)[k]) {
      var name := ExportNames(n)[k];
      assert HasNoUpper(name);
      LowerKeepsLowerCase(name);
    }
  }

  lemma IndexNamesArePng(n: nat)
    ensures forall k :: 0 <= k < n ==> IsPng(IndexNames(n)[k])
  {
    forall k | 0 <= k < n ensures IsPng(IndexNames(n)[k]) {
      var name := IndexNames(n)[k];
      assert HasNoUpper(name);
      LowerKeepsLowerCase(name);
    }
  }

  // ----- Round trips -----

  /** A listing holding the same names as `ExportNames(n)`, in any order. */
  lemma PermutationIsPng(listing: seq<string>, names: seq<string>)
    requires multiset(listing) == multiset(names)
    requires forall k :: 0 <= k < |names| ==> IsPng(names[k])
    ensures PngNames(listing) == listing
  {
    forall k | 0 <= k < |listing| ensures IsPng(listing[k]) {
      assert listing[k] in multiset(names);
    }
  }

  /**
   * Whatever order the directory lists the exported files in, the renaming
   * maps `slide{i}.png` to `{i}.png` for every slide, so the numeric order of
   * the export survives (`slide10.png` comes after `slide9.png`, not after
   * `slide1.png`).
   */
  lemma RenamePlanKeepsSlideOrder(n: nat, listing: seq<string>)
    requires multiset(listing) == multiset(ExportNames(n))
    ensures RenamePlan(listing, n).Success?
    ensures forall i :: 0 <= i < n ==>
              RenamePlan(listing, n).value[i] == Rename(SlideName(i + 1), IndexName(i + 1))
  {
    ExportListing(n, listing);
    var plan := RenamePlan(listing, n).value;
    SortedExportNames(n, Sources(plan));
    PlanOfExportNames(n, plan);
  }

  /** The only key-sorted arrangement of the exported names is the export order. */
  lemma SortedExportNames(n: nat, names: seq<string>)
    requires multiset(names) == multiset(ExportNames(n))
    requires Keyed(names, ExportKey) && SortedBy(names, ExportKey)
    ensures names == ExportNames(n)
  {
    ExportNamesSorted(n);
    SortedPermutationUnique(ExportNames(n), names, ExportKey);
  }

  /** A numbered plan over the export order renames `slide{i}.png` to `{i}.png`. */
  lemma PlanOfExportNames(n: nat, plan: seq<Rename>)
    requires Sources(plan) == ExportNames(n) && |plan| == n
    requires forall i :: 0 <= i < n ==> plan[i].target == IndexName(i + 1)
    ensures forall i :: 0 <= i < n ==> plan[i] == Rename(SlideName(i + 1), IndexName(i + 1))
  {
    forall i | 0 <= i < n ensures plan[i] == Rename(SlideName(i + 1), IndexName(i + 1)) {
      assert plan[i].source == Sources(plan)[i];
    }
  }

  /** A listing of the exported files, in any order, passes both checks of the renaming. */
  lemma ExportListing(n: nat, listing: seq<string>)
    requires multiset(listing) == multiset(ExportNames(n))
    ensures PngNames(listing) == listing && |listing| == n
    ensures Keyed(listing, ExportKey)
    ensures RenamePlan(listing, n).Success?
  {
    var names := ExportNames(n);
    ExportNamesSorted(n);
    ExportNamesArePng(n);
    PermutationIsPng(listing, names);
    PermutationKeyed(listing, names, ExportKey);
    assert |listing| == |multiset(listing)| == n;
  }

  lemma ExportKeysCount(n: nat)
    ensures forall k :: 0 <= k < n ==> ExportKey(ExportNames(n)[k]) == Some(k + 1)
  {
    forall k | 0 <= k < n ensures ExportKey(ExportNames(n)[k]) == Some(k + 1) {
      ExportKeyOfSlideName(k + 1);
    }
  }

  lemma ExportNamesSorted(n: nat)
    ensures Keyed(ExportNames(n), ExportKey)
    ensures SortedBy(ExportNames(n), ExportKey)
    ensures KeysDistinct(ExportNames(n), ExportKey)
  {
    ExportKeysCount(n);
  }

  lemma IndexNamesSorted(n: nat)
    ensures Keyed(IndexNames(n), IndexKey)
    ensures SortedBy(IndexNames(n), IndexKey)
    ensures KeysDistinct(IndexNames(n), IndexKey)
  {
    var names := IndexNames(n);
    forall k | 0 <= k < n ensures IndexKey(names[k]) == Some(k + 1) {
      IndexKeyOfIndexName(k + 1);
    }
  }

  /** A rearrangement of keyed names is keyed. */
  lemma PermutationKeyed(listing: seq<string>, names: seq<string>, key: string -> Option<int>)
    requires multiset(listing) == multiset(names)
    requires Keyed(names, key)
    ensures Keyed(listing, key)
  {
    forall k | 0 <= k < |listing| ensures key(listing[k]).Some? {
      assert listing[k] in multiset(names);
    }
  }

  /**
   * Whatever order the directory lists `1.png` .. `n.png` in, the slide list
   * holds them in numeric order.
   */
  lemma SlideOrderIsNumeric(n: nat, listing: seq<string>)
    requires multiset(listing) == multiset(IndexNames(n))
    ensures SlideOrder(listing) == Success(IndexNames(n))
  {
    var names := IndexNames(n);
    IndexNamesSorted(n);
    IndexNamesArePng(n);
    PermutationIsPng(listing, names);
    PermutationKeyed(listing, names, IndexKey);
    SortedPermutationUnique(names, SlideOrder(listing).value, IndexKey);
  }

  /**
   * End to end: after the renaming, position `k` of the slide list is the
   * file that slide `k + 1` was exported to.
   */
  lemma SlideListFollowsExport(n: nat, exported: seq<string>, plan: seq<Rename>, renamed: seq<string>)
    requires multiset(exported) == multiset(ExportNames(n))
    requires RenamePlan(exported, n) == Success(plan)
    requires multiset(renamed) == multiset(Targets(plan))
    ensures SlideOrder(renamed).Success?
    ensures |SlideOrder(renamed).value| == n
    ensures forall k :: 0 <= k < n ==> plan[k] == Rename(SlideName(k + 1), SlideOrder(renamed).value[k])
  {
    RenamePlanKeepsSlideOrder(n, exported);
    assert Targets(plan) == IndexNames(n) by {
      forall k | 0 <= k < n ensures Targets(plan)[k] == IndexNames(n)[k] {
        assert plan[k].target == IndexName(k + 1);
      }
    }
    SlideOrderIsNumeric(n, renamed);
  }

  function Targets(plan: seq<Rename>): (r: seq<string>)
    ensures |r| == |plan|
  {
    seq(|plan|, i requires 0 <= i < |plan| => plan[i].target)
  }

  /** The renaming never targets a name that is still to be renamed. */
  lemma RenameTargetsFresh(i: nat, j: nat)
    ensures IndexName(i) != SlideName(j)
  {
    assert IndexName(i)[0] == ShowNat(i)[0];
    assert SlideName(j)[0] == 's';
  }

  lemma TenSlideNames()
    ensures SlideName(2) == "slide2.png" && IndexName(2) == "2.png"
    ensures SlideName(10) == "slide10.png" && IndexName(10) == "10.png"
  {
    assert ShowNat(2) == "2";
    assert ShowNat(1) == "1";
    assert ShowNat(10) == ShowNat(1) + [DigitChar(0)] == "10";
  }

  /**
   * With ten slides `slide10.png` precedes `slide2.png` in text order, yet the
   * rename keeps it tenth and `slide2.png` second.
   */
  lemma TenthSlideStaysTenth(listing: seq<string>)
    requires multiset(listing) == multiset(ExportNames(10))
    ensures RenamePlan(listing, 10).Success?
    ensures RenamePlan(listing, 10).value[1] == Rename("slide2.png", "2.png")
    ensures RenamePlan(listing, 10).value[9] == Rename("slide10.png", "10.png")
  {
    RenamePlanKeepsSlideOrder(10, listing);
    TenSlideNames();
  }
}
