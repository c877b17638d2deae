/** The school page-layout engine (SchoolCardsToPNG.py).

    The cards folder holds one sub-folder per school. The engine orders the
    schools (configured order first, then the rest by name), sorts each school's
    card images by the number in their file names, works out a grid from the
    page size, and lays the cards row by row onto A4 pages, putting the school's
    icon and name on the first page of each school only. Pages are numbered by
    one counter across all schools and saved as `001.png`, `002.png`, ...

    Reading, resizing, pasting and saving images are effects of the imaging
    library: a page is modelled as the list of tiles pasted onto it. */
module SchoolCards {
  import opened Builtins

  // ---------------------------------------------------------------------------
  // Constants of the layout

  /** Horizontal space between two cards of a row (lines 110 and 163). */
  const CardGap := 20
  /** `vertical_spacing` between two rows (line 119). */
  const RowGap := 20
  /** Room kept above the grid for the icon and title (lines 118 and 164). */
  const HeaderHeight := 180
  /** The icon is resized to 240 x 180 and pasted at the top-left margin. */
  const IconWidth := 240
  const IconHeight := 180
  /** The school name is drawn at this offset from the top-left margin. */
  const TitleOffsetX := 250
  const TitleOffsetY := 60

  // ---------------------------------------------------------------------------
  // Settings

  /** The configuration keys this engine reads; an absent key is None. */
  datatype Config = Config(margin: Option<int>, cardsPerRow: Option<int>, schoolOrder: Option<seq<string>>)

  /** The settings of one run. `width` and `height` are the A4 canvas in pixels,
      `int(8.27 * dpi)` by `int(11.69 * dpi)`: a floating-point step, taken as given.
      Nothing bounds `dpi`, so either side may be negative. */
  datatype Settings = Settings(width: int, height: int, margin: int, cardsPerRow: int, schoolOrder: seq<string>)

  /** The lookups with their fallbacks: margin 80, four cards per row, no
      configured order. */
  function SettingsOf(c: Config, width: int, height: int): Settings
  {
    Settings(
      width, height,
      match c.margin case Some(m) => m case None => 80,
      match c.cardsPerRow case Some(n) => n case None => 4,
      match c.schoolOrder case Some(o) => o case None => [])
  }

  // ---------------------------------------------------------------------------
  // The cards folder

  /** An entry of the cards folder. A school folder lists the names of the
      files in it, in the order the file system reports them, and the card
      height that the aspect ratio of its first card gives at the computed card
      width (a floating-point step, taken as given). */
  datatype Kind = PlainFile | Folder(files: seq<string>, cardHeight: int)
  datatype Entry = Entry(name: string, kind: Kind)

  /** A directory lists each name once. */
  predicate DistinctNames(listing: seq<Entry>)
  {
    forall i, j :: 0 <= i < j < |listing| ==> listing[i].name != listing[j].name
  }

  predicate HasFolder(listing: seq<Entry>, name: string)
  {
    exists i :: 0 <= i < |listing| && listing[i].name == name && listing[i].kind.Folder?
  }

  /** The names of the sub-folders, in listing order. */
  function FolderNames(listing: seq<Entry>): (r: seq<string>)
    ensures forall x :: x in r <==> HasFolder(listing, x)
    ensures DistinctNames(listing) ==> Distinct(r)
  {
    if listing == [] then []
    else
      var rest := FolderNames(listing[1..]);
      var r := (if listing[0].kind.Folder? then [listing[0].name] else []) + rest;
      assert forall x :: HasFolder(listing, x) <==>
        (x == listing[0].name && listing[0].kind.Folder?) || HasFolder(listing[1..], x) by {
        forall x ensures HasFolder(listing, x) ==>
          (x == listing[0].name && listing[0].kind.Folder?) || HasFolder(listing[1..], x) {
          if HasFolder(listing, x) {
            var i :| 0 <= i < |listing| && listing[i].name == x && listing[i].kind.Folder?;
            if i > 0 { assert listing[1..][i - 1] == listing[i]; }
          }
        }
        forall x | HasFolder(listing[1..], x) ensures HasFolder(listing, x) {
          var i :| 0 <= i < |listing| - 1 && listing[1..][i].name == x && listing[1..][i].kind.Folder?;
          assert listing[i + 1] == listing[1..][i];
        }
      }
      if DistinctNames(listing) then
        assert DistinctNames(listing[1..]) by {
          forall i, j | 0 <= i < j < |listing| - 1 ensures listing[1..][i].name != listing[1..][j].name {
            assert listing[1..][i] == listing[i + 1] && listing[1..][j] == listing[j + 1];
          }
        }
        assert listing[0].name !in rest;
        DistinctCons(listing[0].name, rest);
        r
      else r
  }

  /** `get_school_folders`: the sub-folders of the cards folder, sorted by name. */
  function SchoolFolders(listing: seq<Entry>): (r: seq<string>)
    ensures SortedStrings(r)
    ensures forall x :: x in r <==> HasFolder(listing, x)
    ensures DistinctNames(listing) ==> Distinct(r)
  {
    var names := FolderNames(listing);
    var r := SortStrings(names);
    assert forall x :: x in r <==> x in names by {
      forall x ensures x in r <==> x in names {
        assert x in r <==> x in multiset(r);
        assert x in names <==> x in multiset(names);
      }
    }
    DistinctPermutation(names, r);
    r
  }

  /** The files of the school folder `name`; nothing for a name without one. */
  function FilesOf(listing: seq<Entry>, name: string): seq<string>
  {
    if listing == [] then []
    else if listing[0].name == name && listing[0].kind.Folder? then listing[0].kind.files
    else FilesOf(listing[1..], name)
  }

  function CardHeightOf(listing: seq<Entry>, name: string): int
  {
    if listing == [] then 0
    else if listing[0].name == name && listing[0].kind.Folder? then listing[0].kind.cardHeight
    else CardHeightOf(listing[1..], name)
  }

  // ---------------------------------------------------------------------------
  // The order of the schools (lines 74-85)

  /** The names of `order` that `all` contains, each kept where it is first
      listed; the reference for the first part of the school order. */
  function Listed(order: seq<string>, all: seq<string>): seq<string>
    decreases |order|
  {
    if order == [] then []
    else
      var init, x := order[..|order| - 1], order[|order| - 1];
      Listed(init, all) + (if x in all && x !in init then [x] else [])
  }

  /** The names of `all` that `order` does not mention, in the order of `all`. */
  function Unlisted(all: seq<string>, order: seq<string>): seq<string>
  {
    if all == [] then []
    else (if all[0] in order then [] else [all[0]]) + Unlisted(all[1..], order)
  }

  /** The schools in processing order: the configured ones that exist, in the
      configured order, then the others by name. */
  function SchoolSequence(order: seq<string>, all: seq<string>): seq<string>
  {
    Listed(order, all) + SortStrings(Unlisted(all, order))
  }

  lemma {:induction false} ListedElements(order: seq<string>, all: seq<string>, x: string)
    ensures x in Listed(order, all) <==> x in order && x in all
    decreases |order|
  {
    if order != [] {
      var init := order[..|order| - 1];
      assert order == init + [order[|order| - 1]];
      ListedElements(init, all, x);
    }
  }

  lemma {:induction false} ListedDistinct(order: seq<string>, all: seq<string>)
    ensures Distinct(Listed(order, all))
    decreases |order|
  {
    if order != [] {
      var init, x := order[..|order| - 1], order[|order| - 1];
      ListedDistinct(init, all);
      ListedElements(init, all, x);
      var l := Listed(init, all);
      if x in all && x !in init {
        assert forall i :: 0 <= i < |l| ==> l[i] != x by {
          forall i | 0 <= i < |l| ensures l[i] != x { assert l[i] in l; }
        }
      }
    }
  }

  lemma {:induction false} UnlistedElements(all: seq<string>, order: seq<string>, x: string)
    ensures x in Unlisted(all, order) <==> x in all && x !in order
    decreases |all|
  {
    if all != [] {
      assert all == [all[0]] + all[1..];
      UnlistedElements(all[1..], order, x);
    }
  }

  lemma {:induction false} UnlistedDistinct(all: seq<string>, order: seq<string>)
    requires Distinct(all)
    ensures Distinct(Unlisted(all, order))
    decreases |all|
  {
    if all != [] {
      assert all == [all[0]] + all[1..];
      DistinctCons(all[0], all[1..]);
      UnlistedDistinct(all[1..], order);
      UnlistedElements(all[1..], order, all[0]);
      DistinctCons(all[0], Unlisted(all[1..], order));
    }
  }

  /** Naming a school that `all` lacks, or that was named before, changes nothing. */
  lemma {:induction false} UnlistedExtendUnused(all: seq<string>, order: seq<string>, x: string)
    requires x !in all || x in order
    ensures Unlisted(all, order + [x]) == Unlisted(all, order)
    decreases |all|
  {
    if all != [] {
      UnlistedExtendUnused(all[1..], order, x);
    }
  }

  /** With nothing configured every school remains. */
  lemma {:induction false} UnlistedNothing(all: seq<string>)
    ensures Unlisted(all, []) == all
    decreases |all|
  {
    if all != [] {
      UnlistedNothing(all[1..]);
      assert all == [all[0]] + all[1..];
    }
  }

  /** `all_schools.remove(school)` on the remaining schools. */
  lemma {:induction false} UnlistedRemove(all: seq<string>, order: seq<string>, x: string)
    requires Distinct(all)
    requires x in Unlisted(all, order)
    ensures RemoveFirst(Unlisted(all, order), x) == Unlisted(all, order + [x])
    decreases |all|
  {
    UnlistedElements(all, order, x);
    var head, tail := all[0], all[1..];
    assert all == [head] + tail;
    DistinctCons(head, tail);
    var rest := Unlisted(tail, order);
    var rest' := Unlisted(tail, order + [x]);
    assert Unlisted(all, order + [x]) == (if head in order + [x] then [] else [head]) + rest';
    if head == x {
      assert Unlisted(all, order) == [x] + rest;
      UnlistedExtendUnused(tail, order, x);
      assert Unlisted(all, order + [x]) == rest';
    } else {
      assert x in tail;
      UnlistedElements(tail, order, x);
      UnlistedRemove(tail, order, x);
      assert head in order + [x] <==> head in order;
      if head in order {
        assert Unlisted(all, order) == rest;
      } else {
        assert Unlisted(all, order) == [head] + rest;
        assert RemoveFirst([head] + rest, x) == [head] + RemoveFirst(rest, x);
      }
    }
  }

  /** One turn of the loop at lines 78-85: the next configured school moves
      from the remaining schools to the result when it is still remaining. */
  lemma OrderStep(all: seq<string>, done: seq<string>, school: string)
    requires Distinct(all)
    ensures school in Unlisted(all, done) ==>
      && Listed(done + [school], all) == Listed(done, all) + [school]
      && Unlisted(all, done + [school]) == RemoveFirst(Unlisted(all, done), school)
    ensures school !in Unlisted(all, done) ==>
      && Listed(done + [school], all) == Listed(done, all)
      && Unlisted(all, done + [school]) == Unlisted(all, done)
  {
    assert (done + [school])[..|done|] == done;
    UnlistedElements(all, done, school);
    if school in Unlisted(all, done) {
      UnlistedRemove(all, done, school);
    } else {
      UnlistedExtendUnused(all, done, school);
    }
  }

  /** The loop at lines 78-85: every configured school that is still among the
      remaining ones is moved to the result; the rest follow, sorted. */
  method OrderSchools(schoolOrder: seq<string>, allSchools: seq<string>) returns (schoolFolders: seq<string>)
    requires Distinct(allSchools)
    ensures schoolFolders == SchoolSequence(schoolOrder, allSchools)
  {
    var remaining := allSchools;
    schoolFolders := [];
    UnlistedNothing(allSchools);
    for k := 0 to |schoolOrder|
      invariant schoolFolders == Listed(schoolOrder[..k], allSchools)
      invariant remaining == Unlisted(allSchools, schoolOrder[..k])
    {
      var school := schoolOrder[k];
      assert schoolOrder[..k + 1] == schoolOrder[..k] + [school];
      OrderStep(allSchools, schoolOrder[..k], school);
      if school in remaining {
        schoolFolders := schoolFolders + [school];
        remaining := RemoveFirst(remaining, school);
      }
    }
    assert schoolOrder[..|schoolOrder|] == schoolOrder;
    schoolFolders := schoolFolders + SortStrings(remaining);
  }

  /** The two parts of the school sequence have no school in common. */
  lemma SchoolPartsDisjoint(order: seq<string>, all: seq<string>, x: string)
    ensures x in Listed(order, all) <==> x in order && x in all
    ensures x in SortStrings(Unlisted(all, order)) <==> x in all && x !in order
  {
    var u := Unlisted(all, order);
    var t := SortStrings(u);
    ListedElements(order, all, x);
    UnlistedElements(all, order, x);
    assert x in t <==> x in multiset(t);
    assert x in u <==> x in multiset(u);
  }

  lemma DistinctAppend(a: seq<string>, b: seq<string>)
    requires Distinct(a) && Distinct(b)
    requires forall x :: x in a ==> x !in b
    ensures Distinct(a + b)
  {
    var r := a + b;
    forall i, j | 0 <= i < j < |r| ensures r[i] != r[j] {
      if j >= |a| && i < |a| {
        assert r[i] == a[i] && r[j] == b[j - |a|];
        assert r[i] in a;
      } else if i >= |a| {
        assert r[i] == b[i - |a|] && r[j] == b[j - |a|];
      } else {
        assert r[i] == a[i] && r[j] == a[j];
      }
    }
  }

  /** The final school list is a permutation of the discovered folders without
      duplicates, even when the configured order repeats a name; the
      configured schools come first and every other school follows, sorted. */
  lemma SchoolSequenceIsPermutation(order: seq<string>, all: seq<string>)
    requires Distinct(all)
    ensures Distinct(SchoolSequence(order, all))
    ensures multiset(SchoolSequence(order, all)) == multiset(all)
    ensures var r, n := SchoolSequence(order, all), |Listed(order, all)|;
      && (forall i :: 0 <= i < n ==> r[i] in order)
      && (forall i :: n <= i < |r| ==> r[i] !in order)
      && SortedStrings(r[n..])
  {
    var l := Listed(order, all);
    var u := Unlisted(all, order);
    var t := SortStrings(u);
    var r := l + t;
    ListedDistinct(order, all);
    UnlistedDistinct(all, order);
    DistinctPermutation(u, t);
    forall x | x in l ensures x !in t {
      SchoolPartsDisjoint(order, all, x);
    }
    DistinctAppend(l, t);
    assert r[|l|..] == t;
    forall i | 0 <= i < |r| ensures (i < |l| ==> r[i] in order) && (i >= |l| ==> r[i] !in order) {
      SchoolPartsDisjoint(order, all, r[i]);
      if i < |l| { assert r[i] in l; } else { assert r[i] == t[i - |l|]; assert r[i] in t; }
    }
    forall x ensures x in r <==> x in all {
      SchoolPartsDisjoint(order, all, x);
    }
    DistinctSameElements(r, all);
  }

  /** With the configured order `b, a` and the folders `a, b, c`, the schools
      are processed as `b, a, c`. */
  lemma SchoolSequenceExample(a: string, b: string, c: string)
    requires a != b && b != c && a != c
    ensures SchoolSequence([b, a], [a, b, c]) == [b, a, c]
  {
    var order: seq<string> := [b, a];
    var all: seq<string> := [a, b, c];
    assert order[..1] == [b] && order[..1][..0] == [];
    assert Listed(order[..1], all) == [b];
    assert Listed(order, all) == [b, a];
    assert all[1..] == [b, c] && all[1..][1..] == [c] && all[1..][1..][1..] == [];
    assert c !in order && a in order && b in order;
    assert Unlisted(all[1..][1..][1..], order) == [];
    assert Unlisted(all[1..][1..], order) == [c] + [] == [c];
    assert Unlisted(all[1..], order) == [] + [c] == [c];
    assert Unlisted(all, order) == [] + [c] == [c];
    SortOneString(c);
  }

  // ---------------------------------------------------------------------------
  // The card files of a school (lines 49-64)
  //
  // A file is named by its name inside the school folder: the basename of the
  // path glob returns (see `IconSuffixOnName` for the one test made on the path).

  const IconSuffix := "icon.png"
  const CardExtensions: seq<string> := [".png", ".jpg", ".jpeg"]

  /** glob's `*<ext>` in one folder: the name ends with the extension and, as
      for every `*` pattern, does not start with a dot. */
  predicate MatchesGlob(name: string, ext: string)
  {
    EndsWith(name, ext) && name != [] && name[0] != '.'
  }

  /** The files matched by one pattern, minus the icons, in listing order. */
  function GlobCards(files: seq<string>, ext: string): (r: seq<string>)
    ensures forall f :: f in r <==> f in files && MatchesGlob(f, ext) && !EndsWith(f, IconSuffix)
  {
    if files == [] then []
    else
      (if MatchesGlob(files[0], ext) && !EndsWith(files[0], IconSuffix) then [files[0]] else [])
      + GlobCards(files[1..], ext)
  }

  /** The candidates of every pattern in `exts`, one pattern after the other. */
  function Globbed(files: seq<string>, exts: seq<string>): seq<string>
    decreases |exts|
  {
    if exts == [] then [] else Globbed(files, exts[..|exts| - 1]) + GlobCards(files, exts[|exts| - 1])
  }

  /** Where `os.path.splitext` cuts the name: at the last dot, unless only
      dots precede it, in which case there is no extension. */
  function StemLength(name: string): (k: nat)
    ensures k <= |name|
    ensures k < |name| ==> name[k] == '.' && '.' !in name[k + 1..]
    ensures k < |name| ==> exists i :: 0 <= i < k && name[i] != '.'
    ensures k == |name| ==> OnlyLeadingDots(name)
  {
    var d := LastDot(name);
    if d < |name| && (exists i :: 0 <= i < d && name[i] != '.') then d
    else
      LeadingDots(name, d);
      |name|
  }

  /** Every dot of `name` has only dots before it (a name like `.bashrc` or
      `..`), so `splitext` finds no extension. */
  predicate OnlyLeadingDots(name: string)
  {
    forall i :: 0 <= i < |name| && name[i] == '.' ==> forall j :: 0 <= j < i ==> name[j] == '.'
  }

  lemma LeadingDots(name: string, d: nat)
    requires d == LastDot(name)
    requires d < |name| ==> forall i :: 0 <= i < d ==> name[i] == '.'
    ensures OnlyLeadingDots(name)
  {
    forall i | 0 <= i < |name| && name[i] == '.' ensures forall j :: 0 <= j < i ==> name[j] == '.' {
      assert i <= d;
    }
  }

  /** The index of the last dot, or |name| when there is none. */
  function LastDot(name: string): (d: nat)
    ensures d <= |name|
    ensures d < |name| ==> name[d] == '.' && '.' !in name[d + 1..]
    ensures d == |name| ==> '.' !in name
  {
    if name == [] then 0
    else if name[|name| - 1] == '.' then |name| - 1
    else
      var d := LastDot(name[..|name| - 1]);
      assert name[..|name| - 1] + [name[|name| - 1]] == name;
      if d == |name| - 1 then |name|
      else
        assert name[d + 1..] == name[..|name| - 1][d + 1..] + [name[|name| - 1]];
        d
  }

  /** The name without its extension. */
  function Stem(name: string): string
  {
    name[..StemLength(name)]
  }

  /** `''.join(filter(str.isdigit, s))`. */
  function DigitsOf(s: string): (r: string)
    ensures AllDigits(r) && |r| <= |s|
    decreases |s|
  {
    if s == [] then []
    else DigitsOf(s[..|s| - 1]) + (if IsDigit(s[|s| - 1]) then [s[|s| - 1]] else [])
  }

  /** `extract_number`: the integer the digits of the stem spell, 0 without any. */
  function ExtractNumber(name: string): (n: nat)
    ensures DigitsOf(Stem(name)) == [] ==> n == 0
    ensures n < Pow10(|DigitsOf(Stem(name))|)
  {
    var ds := DigitsOf(Stem(name));
    if ds == [] then 0 else DecimalValue(ds)
  }

  /** `get_card_files` as a value: every candidate, ordered by its number. */
  function CardFiles(files: seq<string>): seq<string>
  {
    SortByKey(Globbed(files, CardExtensions), ExtractNumber)
  }

  /** The loop at lines 52-55 gathers the candidates pattern by pattern; the
      result is then sorted by number. */
  method GetCardFiles(files: seq<string>) returns (cardFiles: seq<string>)
    ensures cardFiles == CardFiles(files)
  {
    var extensions := CardExtensions;
    cardFiles := [];
    for k := 0 to |extensions|
      invariant cardFiles == Globbed(files, extensions[..k])
    {
      assert extensions[..k + 1][..k] == extensions[..k];
      cardFiles := cardFiles + GlobCards(files, extensions[k]);
    }
    assert extensions[..|extensions|] == extensions;
    cardFiles := SortByKey(cardFiles, ExtractNumber);
  }

  /** The icon test is made on the path `folder/name`, but as the suffix holds
      no slash it gives the same answer on the name alone. */
  lemma IconSuffixOnName(folder: string, name: string)
    requires '/' !in name
    ensures EndsWith(folder + "/" + name, IconSuffix) <==> EndsWith(name, IconSuffix)
  {
    assert '/' !in IconSuffix by {
      forall k | 0 <= k < |IconSuffix| ensures IconSuffix[k] != '/' {}
    }
    EndsWithAfterSeparator(folder, '/', name, IconSuffix);
  }

  /** The candidates: the `.png` files, then the `.jpg` files, then the `.jpeg` files. */
  lemma CandidatesByPattern(files: seq<string>)
    ensures Globbed(files, CardExtensions)
            == GlobCards(files, ".png") + GlobCards(files, ".jpg") + GlobCards(files, ".jpeg")
  {
    var e := CardExtensions;
    assert e[..2] == [".png", ".jpg"] && e[..2][..1] == [".png"] && e[..2][..1][..0] == [];
    assert Globbed(files, e[..2][..1]) == GlobCards(files, ".png");
    assert Globbed(files, e[..2]) == GlobCards(files, ".png") + GlobCards(files, ".jpg");
  }

  /** The candidates are exactly the visible image files other than icons. */
  lemma CardFilesMembers(files: seq<string>, f: string)
    ensures f in CardFiles(files) <==>
      f in files && !EndsWith(f, IconSuffix)
      && (MatchesGlob(f, ".png") || MatchesGlob(f, ".jpg") || MatchesGlob(f, ".jpeg"))
  {
    var c := Globbed(files, CardExtensions);
    CandidatesByPattern(files);
    assert f in CardFiles(files) <==> f in multiset(CardFiles(files));
    assert f in c <==> f in multiset(c);
  }

  /** The cards are in ascending order of their numbers, and cards with the
      same number keep the order the patterns and the listing gave them. */
  lemma CardFilesOrder(files: seq<string>, k: int)
    ensures SortedByKey(CardFiles(files), ExtractNumber)
    ensures WithKey(CardFiles(files), ExtractNumber, k) == WithKey(Globbed(files, CardExtensions), ExtractNumber, k)
  {
    SortByKeyStable(Globbed(files, CardExtensions), ExtractNumber, k);
  }

  /** A name `stem.ext` whose stem does not start with a dot and whose
      extension holds one dot is cut right before the extension. */
  lemma StemOfName(stem: string, ext: string)
    requires stem != [] && stem[0] != '.'
    requires ext != [] && ext[0] == '.' && '.' !in ext[1..]
    ensures Stem(stem + ext) == stem
  {
    var name := stem + ext;
    assert name[|stem|] == '.';
    assert name[|stem| + 1..] == ext[1..];
    assert name[0] != '.';
    assert name[..|stem|] == stem;
  }

  lemma {:induction false} DigitsOfDigits(s: string)
    requires AllDigits(s)
    ensures DigitsOf(s) == s
    decreases |s|
  {
    if s != [] {
      DigitsOfDigits(s[..|s| - 1]);
    }
  }

  /** The sort key of a page file `NNN.png` written by this engine is its page
      number. */
  lemma ExtractNumberOfPageFile(n: nat)
    ensures ExtractNumber(Format03(n) + ".png") == n
  {
    var f := Format03(n);
    assert f[0] != '.' by { assert IsDigit(f[0]); }
    StemOfName(f, ".png");
    DigitsOfDigits(f);
    Format03RoundTrip(n);
  }

  /** The key of `stem.ext` is the number the digits of the stem spell. */
  lemma ExtractNumberOfStem(stem: string, ext: string)
    requires stem != [] && stem[0] != '.'
    requires ext != [] && ext[0] == '.' && '.' !in ext[1..]
    ensures ExtractNumber(stem + ext) == if DigitsOf(stem) == [] then 0 else DecimalValue(DigitsOf(stem))
  {
    StemOfName(stem, ext);
  }

  /** The key joins all digits of the stem: `a1b2` gives 12. */
  lemma ExtractNumberJoinsDigits()
    ensures ExtractNumber("a1b2.png") == 12
  {
    assert "a1b2.png" == "a1b2" + ".png";
    ExtractNumberOfStem("a1b2", ".png");
    DigitsOfA1B2();
    assert DecimalValue("12") == 12 by { assert "12"[..1] == "1"; }
  }

  lemma DigitsOfA1B2()
    ensures DigitsOf("a1b2") == "12"
  {
    assert "a1b2"[..3] == "a1b" && "a1b"[..2] == "a1" && "a1"[..1] == "a" && "a"[..0] == "";
    assert DigitsOf("a1") == "1";
  }

  /** Leading zeros do not count: `007.png` has the key of `7.png`. */
  lemma ExtractNumberLeadingZeros(z: nat, stem: string, ext: string)
    requires stem != [] && stem[0] != '.'
    requires ext != [] && ext[0] == '.' && '.' !in ext[1..]
    ensures ExtractNumber(Zeros(z) + stem + ext) == ExtractNumber(stem + ext)
  {
    var padded := Zeros(z) + stem;
    assert padded[0] != '.' by {
      if z > 0 { assert padded[0] == Zeros(z)[0] == '0'; } else { assert padded == stem; }
    }
    assert Zeros(z) + stem + ext == padded + ext;
    ExtractNumberOfStem(padded, ext);
    ExtractNumberOfStem(stem, ext);
    DigitsOfConcat(Zeros(z), stem);
    DigitsOfDigits(Zeros(z));
    var ds := DigitsOf(stem);
    DecimalValueZeros(z, ds);
    if ds == [] {
      assert Zeros(z) + ds == Zeros(z);
      DecimalValueZeros(z, "");
    }
  }

  /** A stem without digits has key 0: `card.jpeg` gives 0. */
  lemma ExtractNumberNoDigits(stem: string, ext: string)
    requires stem != [] && stem[0] != '.'
    requires ext != [] && ext[0] == '.' && '.' !in ext[1..]
    requires forall i :: 0 <= i < |stem| ==> !IsDigit(stem[i])
    ensures ExtractNumber(stem + ext) == 0
  {
    ExtractNumberOfStem(stem, ext);
    DigitsOfNone(stem);
  }

  lemma {:induction false} DigitsOfNone(s: string)
    requires forall i :: 0 <= i < |s| ==> !IsDigit(s[i])
    ensures DigitsOf(s) == []
    decreases |s|
  {
    if s != [] {
      DigitsOfNone(s[..|s| - 1]);
    }
  }

  /** The digits of a concatenation are the digits of its parts. */
  lemma {:induction false} DigitsOfConcat(a: string, b: string)
    ensures DigitsOf(a + b) == DigitsOf(a) + DigitsOf(b)
    decreases |b|
  {
    if b == [] {
      assert a + b == a;
    } else {
      var init := b[..|b| - 1];
      assert (a + b)[..|a + b| - 1] == a + init;
      assert (a + b)[|a + b| - 1] == b[|b| - 1];
      DigitsOfConcat(a, init);
    }
  }

  // ---------------------------------------------------------------------------
  // The grid of a school (lines 109-122)

  /** The exception computing a grid raises (caught at line 185): a division
      by zero. The imaging failures are `BadCanvas` and `BadCardSize`. */
  datatype Failure = ZeroDivision
  datatype Outcome<T> = Ok(value: T) | Raised(failure: Failure)

  datatype Grid = Grid(cardWidth: int, cardHeight: int, cardsPerColumn: int, totalPages: int)

  function AvailableWidth(s: Settings): int { s.width - 2 * s.margin }

  function AvailableHeight(s: Settings): int { s.height - 2 * s.margin - HeaderHeight }

  function CardsPerPage(s: Settings, g: Grid): int { s.cardsPerRow * g.cardsPerColumn }

  /** A grid with a non-zero page capacity and the page count it implies. */
  predicate Paged(s: Settings, g: Grid, n: nat)
  {
    CardsPerPage(s, g) != 0 && g.totalPages == CeilDiv(n, CardsPerPage(s, g))
  }

  /** The grid for a school of `n` cards whose first card, scaled to the card
      width, is `cardHeight` pixels high. The width is the largest that lets
      `cardsPerRow` cards and their gaps fit across, the row count the largest
      that fits down, and the page count the least that holds every card. The
      divisions raise when the row length, the row pitch or the page capacity
      is zero. */
  function SchoolGrid(s: Settings, cardHeight: int, n: nat): (r: Outcome<Grid>)
    ensures r.Raised? <==> s.cardsPerRow == 0 || cardHeight + RowGap == 0
                           || FloorDiv(AvailableHeight(s), cardHeight + RowGap) == 0
    ensures r.Ok? ==> r.value.cardHeight == cardHeight && Paged(s, r.value, n)
    ensures r.Ok? && s.cardsPerRow > 0 ==>
      var w := r.value.cardWidth + CardGap;
      s.cardsPerRow * w <= AvailableWidth(s) < s.cardsPerRow * (w + 1)
    ensures r.Ok? && cardHeight + RowGap > 0 ==>
      var c, h := r.value.cardsPerColumn, cardHeight + RowGap;
      c * h <= AvailableHeight(s) < (c + 1) * h
    ensures r.Ok? ==>
      var cpp, t := CardsPerPage(s, r.value), r.value.totalPages;
      (cpp > 0 ==> (t - 1) * cpp < n <= t * cpp) && (cpp < 0 ==> t <= 0)
  {
    if s.cardsPerRow == 0 then Raised(ZeroDivision)
    else
      var cardWidth := FloorDiv(AvailableWidth(s), s.cardsPerRow) - CardGap;
      if cardHeight + RowGap == 0 then Raised(ZeroDivision)
      else
        var cardsPerColumn := FloorDiv(AvailableHeight(s), cardHeight + RowGap);
        var cpp := s.cardsPerRow * cardsPerColumn;
        if cpp == 0 then Raised(ZeroDivision)
        else
          var t := CeilDiv(n, cpp);
          MulSucc(cardWidth + CardGap, s.cardsPerRow);
          MulSucc(cardsPerColumn, cardHeight + RowGap);
          Ok(Grid(cardWidth, cardHeight, cardsPerColumn, t))
  }

  /** Creating a page (line 128) raises for a canvas with a negative side. */
  predicate BadCanvas(s: Settings)
  {
    s.width < 0 || s.height < 0
  }

  /** The resize at line 168 raises unless both card sides are positive. */
  predicate BadCardSize(g: Grid)
  {
    g.cardWidth < 1 || g.cardHeight < 1
  }

  // ---------------------------------------------------------------------------
  // Pages and tiles (lines 126-176)

  datatype Point = Point(x: int, y: int)

  /** A card pasted onto a page: the card file, its top-left corner and size. */
  datatype Tile = Tile(card: string, x: int, y: int, width: int, height: int)

  /** The header of a school's first page: the school name drawn at `titleAt`,
      and the icon, resized to 240 x 180, at `icon` when the folder has one. */
  datatype Header = Header(title: string, titleAt: Point, icon: Option<Point>)

  /** A saved page: its number in the run, its school, its header if any, and
      its cards. */
  datatype Page = Page(number: nat, school: string, header: Option<Header>, tiles: seq<Tile>)

  /** The file a page is saved to inside the pages folder: the number formatted with `03d`, then `.png`. */
  function FileName(p: Page): string
  {
    Format03(p.number) + ".png"
  }

  function SchoolHeader(s: Settings, school: string, hasIcon: bool): Header
  {
    Header(school, Point(s.margin + TitleOffsetX, s.margin + TitleOffsetY),
           if hasIcon then Some(Point(s.margin, s.margin)) else None)
  }

  /** The row and column of position `p` of a page (lines 160-161). */
  function Row(s: Settings, p: int): int
    requires s.cardsPerRow != 0
  {
    FloorDiv(p, s.cardsPerRow)
  }

  function Col(s: Settings, p: int): int
    requires s.cardsPerRow != 0
  {
    FloorMod(p, s.cardsPerRow)
  }

  /** The card at position `p` of its page (lines 163-164). */
  function CardTile(s: Settings, g: Grid, card: string, p: int): Tile
    requires s.cardsPerRow != 0
  {
    Tile(card,
         s.margin + Col(s, p) * (g.cardWidth + CardGap),
         s.margin + HeaderHeight + Row(s, p) * (g.cardHeight + RowGap),
         g.cardWidth, g.cardHeight)
  }

  /** The cards `files[start..end]`, placed at positions 0, 1, ... */
  function Tiles(s: Settings, g: Grid, files: seq<string>, start: int, end: int): (r: seq<Tile>)
    requires s.cardsPerRow != 0 && 0 <= start <= end <= |files|
    ensures |r| == end - start && TileCards(r) == files[start..end]
    ensures forall p :: 0 <= p < |r| ==> r[p] == CardTile(s, g, files[start + p], p)
  {
    var r := seq(end - start, p requires 0 <= p < end - start => CardTile(s, g, files[start + p], p));
    assert forall p :: 0 <= p < |r| ==> r[p] == CardTile(s, g, files[start + p], p);
    assert forall p :: 0 <= p < |r| ==> r[p].card == files[start + p];
    r
  }

  /** The first card of page `k` and the end of its range (lines 153-154). */
  function PageStart(s: Settings, g: Grid, k: int): int
  {
    k * CardsPerPage(s, g)
  }

  function PageEnd(s: Settings, g: Grid, n: int, k: int): int
  {
    Min(PageStart(s, g, k) + CardsPerPage(s, g), n)
  }

  /** Every page of a school holds a non-empty run of its cards, a full page
      except possibly the last, which ends at the last card; each page starts
      where the previous one ended. */
  lemma PageRange(s: Settings, g: Grid, n: nat, k: int)
    requires Paged(s, g, n) && 0 <= k < g.totalPages
    ensures CardsPerPage(s, g) > 0
    ensures 0 <= PageStart(s, g, k) < PageEnd(s, g, n, k) <= n
    ensures PageEnd(s, g, n, k) - PageStart(s, g, k) <= CardsPerPage(s, g)
    ensures k < g.totalPages - 1 ==> PageEnd(s, g, n, k) == PageStart(s, g, k + 1)
    ensures k == g.totalPages - 1 ==> PageEnd(s, g, n, k) == n
  {
    var cpp, t := CardsPerPage(s, g), g.totalPages;
    if cpp < 0 {
      MulMonotone(0, t - 1, -cpp);
      MulNegate(t - 1, cpp);
    }
    MulMonotone(0, k, cpp);
    MulMonotone(k, t - 1, cpp);
    MulSucc(k, cpp);
    if k < t - 1 {
      MulMonotone(k + 1, t - 1, cpp);
    }
  }

  lemma MulSucc(a: int, b: int)
    ensures (a + 1) * b == a * b + b
  {
  }

  lemma MulNegate(a: int, b: int)
    ensures a * -b == -(a * b)
  {
  }

  lemma FloorDivNonNegative(a: int, d: int)
    requires a >= 0 && d > 0
    ensures FloorDiv(a, d) >= 0
  {
    var q := FloorDiv(a, d);
    if q < 0 {
      MulMonotone(q + 1, 0, d);
    }
  }

  lemma MulMonotone(a: int, b: int, c: int)
    requires a <= b && 0 < c
    ensures a * c <= b * c
  {
    assert b * c - a * c == (b - a) * c;
  }

  function PageTiles(s: Settings, g: Grid, files: seq<string>, k: int): (r: seq<Tile>)
    requires Paged(s, g, |files|) && 0 <= k < g.totalPages
    ensures 1 <= |r| <= CardsPerPage(s, g)
  {
    PageRange(s, g, |files|, k);
    Tiles(s, g, files, PageStart(s, g, k), PageEnd(s, g, |files|, k))
  }

  /** Page `k` of a school whose pages follow the `first` pages saved before. */
  function SchoolPage(s: Settings, school: string, files: seq<string>, g: Grid, hasIcon: bool, first: nat, k: int): Page
    requires Paged(s, g, |files|) && 0 <= k < g.totalPages
  {
    Page(first + k + 1, school,
         if k == 0 then Some(SchoolHeader(s, school, hasIcon)) else None,
         PageTiles(s, g, files, k))
  }

  /** The pages of one school, one per page of its grid. */
  function SchoolPages(s: Settings, school: string, files: seq<string>, g: Grid, hasIcon: bool, first: nat): (r: seq<Page>)
    requires Paged(s, g, |files|)
    ensures |r| == Max(g.totalPages, 0)
  {
    PagesBefore(s, school, files, g, hasIcon, first, Max(g.totalPages, 0))
  }

  /** Pages 0 to `m - 1` of a school. */
  function PagesBefore(s: Settings, school: string, files: seq<string>, g: Grid, hasIcon: bool, first: nat, m: nat): (r: seq<Page>)
    requires Paged(s, g, |files|) && m <= Max(g.totalPages, 0)
    ensures |r| == m
  {
    if m == 0 then []
    else PagesBefore(s, school, files, g, hasIcon, first, m - 1) + [SchoolPage(s, school, files, g, hasIcon, first, m - 1)]
  }

  lemma {:induction false} PagesBeforeAt(s: Settings, school: string, files: seq<string>, g: Grid, hasIcon: bool, first: nat, m: nat, k: nat)
    requires Paged(s, g, |files|) && m <= Max(g.totalPages, 0) && k < m
    ensures PagesBefore(s, school, files, g, hasIcon, first, m)[k] == SchoolPage(s, school, files, g, hasIcon, first, k)
    decreases m
  {
    if k < m - 1 {
      PagesBeforeAt(s, school, files, g, hasIcon, first, m - 1, k);
    }
  }

  /** Page `k` of a school's pages is the page the grid gives for `k`. */
  lemma SchoolPagesAt(s: Settings, school: string, files: seq<string>, g: Grid, hasIcon: bool, first: nat, k: nat)
    requires Paged(s, g, |files|) && k < g.totalPages
    ensures SchoolPages(s, school, files, g, hasIcon, first)[k] == SchoolPage(s, school, files, g, hasIcon, first, k)
  {
    PagesBeforeAt(s, school, files, g, hasIcon, first, Max(g.totalPages, 0), k);
  }

  // ---------------------------------------------------------------------------
  // A run over all schools (lines 87-187)

  /** Whether the run reached the end (True) or stopped at an exception or for
      want of schools (False), and the pages saved until then. */
  datatype Run = Run(ok: bool, pages: seq<Page>)

  /** What the run reads about one school: its name, its card files in
      order, the card height of its first card and whether `icon.png` exists. */
  datatype School = School(name: string, cards: seq<string>, cardHeight: int, hasIcon: bool)

  function SchoolOf(listing: seq<Entry>, name: string): School
  {
    School(name, CardFiles(FilesOf(listing, name)), CardHeightOf(listing, name),
           IconSuffix in FilesOf(listing, name))
  }

  /** The part of the run that handles one school, after `saved` pages were
      saved: nothing for a school without cards; a failure with nothing saved
      when a division, creating the first page or the first resize raises; its
      pages otherwise. */
  function SchoolRun(s: Settings, c: School, saved: nat): (r: Run)
    ensures !r.ok ==> r.pages == []
  {
    if c.cards == [] then Run(true, [])
    else
      match SchoolGrid(s, c.cardHeight, |c.cards|)
      case Raised(_) => Run(false, [])
      case Ok(g) =>
        if g.totalPages >= 1 && (BadCanvas(s) || BadCardSize(g)) then Run(false, [])
        else Run(true, SchoolPages(s, c.name, c.cards, g, c.hasIcon, saved))
  }

  /** The run over `schools` once the pages `saved` are saved: each school's
      pages follow; a failure ends the run with the pages saved until then. */
  function RunSchools(s: Settings, schools: seq<School>, saved: seq<Page>): Run
    decreases |schools|
  {
    if schools == [] then Run(true, saved)
    else
      var r := SchoolRun(s, schools[0], |saved|);
      if !r.ok then Run(false, saved)
      else RunSchools(s, schools[1..], saved + r.pages)
  }

  lemma RunSchoolsAdvance(s: Settings, schools: seq<School>, i: nat, saved: seq<Page>, ok: bool, pages: seq<Page>)
    requires i < |schools| && Run(ok, pages) == SchoolRun(s, schools[i], |saved|)
    ensures ok ==> RunSchools(s, schools[i..], saved) == RunSchools(s, schools[i + 1..], saved + pages)
    ensures !ok ==> RunSchools(s, schools[i..], saved) == Run(false, saved)
  {
    var rest := schools[i..];
    assert rest[0] == schools[i] && rest[1..] == schools[i + 1..];
  }

  /** The schools of a listing, in the order the run takes them. */
  function Schools(listing: seq<Entry>, names: seq<string>): (r: seq<School>)
    ensures |r| == |names|
  {
    seq(|names|, i requires 0 <= i < |names| => SchoolOf(listing, names[i]))
  }

  /** `create_pages_by_schools` as a value. */
  function CreatePages(s: Settings, listing: seq<Entry>): Run
  {
    var names := SchoolSequence(s.schoolOrder, SchoolFolders(listing));
    if names == [] then Run(false, []) else RunSchools(s, Schools(listing, names), [])
  }

  /** The cards of one page, pasted one after the other (lines 156-171); the
      first resize fails when a card side is not positive. */
  method PasteCards(s: Settings, g: Grid, files: seq<string>, start: int, end: int) returns (ok: bool, tiles: seq<Tile>)
    requires s.cardsPerRow != 0 && 0 <= start < end <= |files|
    ensures ok <==> !BadCardSize(g)
    ensures ok ==> tiles == Tiles(s, g, files, start, end)
  {
    tiles := [];
    for i := start to end
      invariant tiles == Tiles(s, g, files, start, i)
      invariant i > start ==> !BadCardSize(g)
    {
      var positionInPage := i - start;
      var row := FloorDiv(positionInPage, s.cardsPerRow);
      var col := FloorMod(positionInPage, s.cardsPerRow);
      var x := s.margin + col * (g.cardWidth + CardGap);
      var y := s.margin + HeaderHeight + row * (g.cardHeight + RowGap);
      if g.cardWidth < 1 || g.cardHeight < 1 {
        return false, tiles;
      }
      tiles := tiles + [Tile(files[i], x, y, g.cardWidth, g.cardHeight)];
    }
    return true, tiles;
  }

  /** Lines 98-100 and 113-115: the card files of a school, the icon test
      and the card height. */
  method ReadSchool(listing: seq<Entry>, schoolName: string) returns (c: School)
    ensures c == SchoolOf(listing, schoolName)
  {
    var files := FilesOf(listing, schoolName);
    var cardFiles := GetCardFiles(files);
    var hasIcon := IconSuffix in files;
    c := School(schoolName, cardFiles, CardHeightOf(listing, schoolName), hasIcon);
  }

  /** The school at `schoolIndex` of `schoolFolders`, read from the listing. */
  method NextSchool(listing: seq<Entry>, schoolFolders: seq<string>, schoolIndex: nat, ghost schools: seq<School>)
    returns (c: School)
    requires schools == Schools(listing, schoolFolders) && schoolIndex < |schoolFolders|
    ensures c == schools[schoolIndex]
  {
    c := ReadSchool(listing, schoolFolders[schoolIndex]);
  }

  /** The rest of the body of the school loop (lines 102-178), after
      `pageCount` pages were saved. */
  method ProcessSchool(s: Settings, c: School, pageCount: nat) returns (ok: bool, pages: seq<Page>)
    ensures Run(ok, pages) == SchoolRun(s, c, pageCount)
  {
    var schoolName, cardFiles, hasIcon := c.name, c.cards, c.hasIcon;
    pages := [];
    if cardFiles == [] {
      return true, pages;
    }
    if s.cardsPerRow == 0 {
      return false, pages;
    }
    var cardWidth := FloorDiv(AvailableWidth(s), s.cardsPerRow) - CardGap;
    var cardHeight := c.cardHeight;
    var verticalSpacing := RowGap;
    if cardHeight + verticalSpacing == 0 {
      return false, pages;
    }
    var cardsPerColumn := FloorDiv(AvailableHeight(s), cardHeight + verticalSpacing);
    var cardsPerPage := s.cardsPerRow * cardsPerColumn;
    if cardsPerPage == 0 {
      return false, pages;
    }
    var totalPages := CeilDiv(|cardFiles|, cardsPerPage);
    var grid := Grid(cardWidth, cardHeight, cardsPerColumn, totalPages);
    assert SchoolGrid(s, cardHeight, |cardFiles|) == Ok(grid);
    var pageTotal := if totalPages > 0 then totalPages else 0;
    var count := pageCount;
    for pageNum := 0 to pageTotal
      invariant pages == PagesBefore(s, schoolName, cardFiles, grid, hasIcon, pageCount, pageNum)
      invariant count == pageCount + pageNum
      invariant BadCanvas(s) || BadCardSize(grid) ==> pageNum == 0
    {
      if s.width < 0 || s.height < 0 {
        return false, [];
      }
      var header := None;
      if pageNum == 0 {
        header := Some(SchoolHeader(s, schoolName, hasIcon));
      }
      PageRange(s, grid, |cardFiles|, pageNum);
      var startIndex := pageNum * cardsPerPage;
      var endIndex := Min(startIndex + cardsPerPage, |cardFiles|);
      var pasted, tiles := PasteCards(s, grid, cardFiles, startIndex, endIndex);
      if !pasted {
        return false, [];
      }
      count := count + 1;
      NextSchoolPage(s, schoolName, cardFiles, grid, hasIcon, pageCount, pageNum, header, tiles);
      pages := pages + [Page(count, schoolName, header, tiles)];
    }
    return true, pages;
  }

  /** One turn of the page loop of `ProcessSchool` makes the next page. */
  lemma NextSchoolPage(s: Settings, school: string, files: seq<string>, g: Grid, hasIcon: bool, first: nat,
                       k: nat, header: Option<Header>, tiles: seq<Tile>)
    requires Paged(s, g, |files|) && k < g.totalPages && s.cardsPerRow != 0
    requires header == if k == 0 then Some(SchoolHeader(s, school, hasIcon)) else None
    requires 0 <= PageStart(s, g, k) <= PageEnd(s, g, |files|, k) <= |files|
    requires tiles == Tiles(s, g, files, PageStart(s, g, k), PageEnd(s, g, |files|, k))
    ensures PagesBefore(s, school, files, g, hasIcon, first, k + 1)
         == PagesBefore(s, school, files, g, hasIcon, first, k) + [Page(first + k + 1, school, header, tiles)]
  {
    assert SchoolPage(s, school, files, g, hasIcon, first, k) == Page(first + k + 1, school, header, tiles);
  }

  /** The school loop of `create_pages_by_schools`; `saved` is the pages saved,
      in order, and `page_count` their number. */
  method CreatePagesBySchools(s: Settings, listing: seq<Entry>) returns (ok: bool, saved: seq<Page>)
    requires DistinctNames(listing)
    ensures Run(ok, saved) == CreatePages(s, listing)
  {
    var allSchools := SchoolFolders(listing);
    var schoolFolders := OrderSchools(s.schoolOrder, allSchools);
    saved := [];
    if schoolFolders == [] {
      return false, saved;
    }
    var pageCount: nat := 0;
    ghost var schools := Schools(listing, schoolFolders);
    ghost var run := RunSchools(s, schools, []);
    assert CreatePages(s, listing) == run;
    assert schools[0..] == schools;
    for schoolIndex := 0 to |schoolFolders|
      invariant pageCount == |saved|
      invariant run == RunSchools(s, schools[schoolIndex..], saved)
    {
      var school := NextSchool(listing, schoolFolders, schoolIndex, schools);
      var schoolOk, pages := ProcessSchool(s, school, pageCount);
      RunSchoolsAdvance(s, schools, schoolIndex, saved, schoolOk, pages);
      if !schoolOk {
        return false, saved;
      }
      saved := saved + pages;
      pageCount := pageCount + |pages|;
    }
    return true, saved;
  }

  // ---------------------------------------------------------------------------
  // Properties of a run

  /** Whether handling the school `c` raises: it has cards, and a division by
      zero, creating the first page or the first resize fails. */
  predicate SchoolFails(s: Settings, c: School)
  {
    && c.cards != []
    && var grid := SchoolGrid(s, c.cardHeight, |c.cards|);
       grid.Raised? || (grid.value.totalPages >= 1 && (BadCanvas(s) || BadCardSize(grid.value)))
  }

  lemma SchoolRunOk(s: Settings, c: School, first: nat)
    ensures SchoolRun(s, c, first).ok <==> !SchoolFails(s, c)
  {
  }

  /** A page of a school's part of the run is the page its grid gives. */
  lemma SchoolRunPage(s: Settings, c: School, first: nat, k: int)
    requires 0 <= k < |SchoolRun(s, c, first).pages|
    ensures c.cards != [] && SchoolGrid(s, c.cardHeight, |c.cards|).Ok?
    ensures var g := SchoolGrid(s, c.cardHeight, |c.cards|).value;
      && Paged(s, g, |c.cards|) && k < g.totalPages && !BadCanvas(s) && !BadCardSize(g)
      && SchoolRun(s, c, first).pages[k] == SchoolPage(s, c.name, c.cards, g, c.hasIcon, first, k)
  {
    var g := SchoolGrid(s, c.cardHeight, |c.cards|).value;
    SchoolPagesAt(s, c.name, c.cards, g, c.hasIcon, first, k);
  }

  /** Pages numbered 1, 2, 3, ... in the order they are saved. */
  predicate Numbered(pages: seq<Page>)
  {
    forall k :: 0 <= k < |pages| ==> pages[k].number == k + 1
  }

  lemma {:induction false} RunNumbered(s: Settings, schools: seq<School>, saved: seq<Page>)
    requires Numbered(saved)
    ensures Numbered(RunSchools(s, schools, saved).pages)
    decreases |schools|
  {
    if schools != [] {
      var r := SchoolRun(s, schools[0], |saved|);
      if r.ok {
        var next := saved + r.pages;
        forall k | 0 <= k < |next| ensures next[k].number == k + 1 {
          if k >= |saved| {
            SchoolRunPage(s, schools[0], |saved|, k - |saved|);
          }
        }
        RunNumbered(s, schools[1..], next);
      }
    }
  }

  /** `page_count` counts the saved pages across all schools: the k-th page
      saved is number k and goes to its own file. */
  lemma PagesNumberedInOrder(s: Settings, listing: seq<Entry>)
    ensures var pages := CreatePages(s, listing).pages;
      && Numbered(pages)
      && forall i, j :: 0 <= i < j < |pages| ==> FileName(pages[i]) != FileName(pages[j])
  {
    var names := SchoolSequence(s.schoolOrder, SchoolFolders(listing));
    if names != [] {
      RunNumbered(s, Schools(listing, names), []);
    }
    var pages := CreatePages(s, listing).pages;
    forall i, j | 0 <= i < j < |pages| ensures FileName(pages[i]) != FileName(pages[j]) {
      Format03RoundTrip(pages[i].number);
      Format03RoundTrip(pages[j].number);
      FileNameNumber(pages[i]);
      FileNameNumber(pages[j]);
    }
  }

  lemma FileNameNumber(p: Page)
    ensures Format03(p.number) == FileName(p)[..|FileName(p)| - 4]
  {
  }

  /** Page `k` is the first of its school. */
  predicate StartsSchool(pages: seq<Page>, k: int)
    requires 0 <= k < |pages|
  {
    k == 0 || pages[k - 1].school != pages[k].school
  }

  /** A header exactly on the first page of each school. */
  predicate HeadersOnFirstPages(pages: seq<Page>)
  {
    forall k :: 0 <= k < |pages| ==> (pages[k].header.Some? <==> StartsSchool(pages, k))
  }

  predicate DistinctSchoolNames(schools: seq<School>)
  {
    forall i, j :: 0 <= i < j < |schools| ==> schools[i].name != schools[j].name
  }

  /** None of the saved pages belongs to a school still to come. */
  predicate NoneOf(saved: seq<Page>, schools: seq<School>)
  {
    forall k, i :: 0 <= k < |saved| && 0 <= i < |schools| ==> saved[k].school != schools[i].name
  }

  /** A school's pages all name the school, and only the first has a header. */
  lemma SchoolRunHeaders(s: Settings, c: School, first: nat)
    ensures var pages := SchoolRun(s, c, first).pages;
      forall k :: 0 <= k < |pages| ==> pages[k].school == c.name && (pages[k].header.Some? <==> k == 0)
  {
    var pages := SchoolRun(s, c, first).pages;
    forall k | 0 <= k < |pages| ensures pages[k].school == c.name && (pages[k].header.Some? <==> k == 0) {
      SchoolRunPage(s, c, first, k);
    }
  }

  predicate SchoolPagesOf(pages: seq<Page>, name: string)
  {
    forall k :: 0 <= k < |pages| ==> pages[k].school == name && (pages[k].header.Some? <==> k == 0)
  }

  lemma HeadersAppend(saved: seq<Page>, pages: seq<Page>, name: string)
    requires HeadersOnFirstPages(saved) && SchoolPagesOf(pages, name)
    requires forall k :: 0 <= k < |saved| ==> saved[k].school != name
    ensures HeadersOnFirstPages(saved + pages)
  {
    var next := saved + pages;
    forall k | 0 <= k < |next| ensures next[k].header.Some? <==> StartsSchool(next, k) {
      if k < |saved| {
        assert saved[k].header.Some? <==> StartsSchool(saved, k);
        assert next[k] == saved[k];
        if k > 0 { assert next[k - 1] == saved[k - 1]; }
      } else {
        var j := k - |saved|;
        assert next[k] == pages[j];
        assert pages[j].school == name && (pages[j].header.Some? <==> j == 0);
        if j > 0 {
          assert next[k - 1] == pages[j - 1];
          assert pages[j - 1].school == name;
        } else if k > 0 {
          assert next[k - 1] == saved[k - 1];
          assert saved[k - 1].school != name;
        }
      }
    }
  }

  lemma {:induction false} RunHeaders(s: Settings, schools: seq<School>, saved: seq<Page>)
    requires DistinctSchoolNames(schools) && NoneOf(saved, schools)
    requires HeadersOnFirstPages(saved)
    ensures HeadersOnFirstPages(RunSchools(s, schools, saved).pages)
    decreases |schools|
  {
    if schools != [] {
      var c := schools[0];
      var r := SchoolRun(s, c, |saved|);
      if r.ok {
        var next := saved + r.pages;
        SchoolRunHeaders(s, c, |saved|);
        assert SchoolPagesOf(r.pages, c.name);
        assert forall k :: 0 <= k < |saved| ==> saved[k].school != c.name;
        HeadersAppend(saved, r.pages, c.name);
        assert NoneOf(next, schools[1..]) by {
          forall k, i | 0 <= k < |next| && 0 <= i < |schools| - 1
            ensures next[k].school != schools[1..][i].name
          {
            assert schools[1..][i] == schools[i + 1];
            if k >= |saved| {
              assert next[k] == r.pages[k - |saved|];
            } else {
              assert next[k] == saved[k];
            }
          }
        }
        assert DistinctSchoolNames(schools[1..]) by {
          forall i, j | 0 <= i < j < |schools| - 1 ensures schools[1..][i].name != schools[1..][j].name {
            assert schools[1..][i] == schools[i + 1] && schools[1..][j] == schools[j + 1];
          }
        }
        RunHeaders(s, schools[1..], next);
      }
    }
  }

  /** `create_pages_by_schools` puts the header on the first page of each
      school and on no other page. */
  lemma CreatePagesHeaders(s: Settings, listing: seq<Entry>)
    requires DistinctNames(listing)
    ensures HeadersOnFirstPages(CreatePages(s, listing).pages)
  {
    var names := SchoolSequence(s.schoolOrder, SchoolFolders(listing));
    if names != [] {
      SchoolSequenceIsPermutation(s.schoolOrder, SchoolFolders(listing));
      var schools := Schools(listing, names);
      assert DistinctSchoolNames(schools) by {
        forall i, j | 0 <= i < j < |schools| ensures schools[i].name != schools[j].name {
          assert schools[i].name == names[i] && schools[j].name == names[j];
        }
      }
      RunHeaders(s, schools, []);
    }
  }

  /** The run over `schools` gets to the end exactly when none of them raises. */
  lemma {:induction false} RunSchoolsOk(s: Settings, schools: seq<School>, saved: seq<Page>)
    ensures RunSchools(s, schools, saved).ok <==> forall i :: 0 <= i < |schools| ==> !SchoolFails(s, schools[i])
    decreases |schools|
  {
    if schools != [] {
      var r := SchoolRun(s, schools[0], |saved|);
      SchoolRunOk(s, schools[0], |saved|);
      if r.ok {
        RunSchoolsOk(s, schools[1..], saved + r.pages);
        assert forall i :: 1 <= i < |schools| ==> schools[i] == schools[1..][i - 1];
      }
    }
  }

  /** The run reports success exactly when the cards folder has a school
      folder and no school raises. */
  lemma CreatePagesOk(s: Settings, listing: seq<Entry>)
    requires DistinctNames(listing)
    ensures CreatePages(s, listing).ok <==>
      && (exists x :: HasFolder(listing, x))
      && forall x :: HasFolder(listing, x) ==> !SchoolFails(s, SchoolOf(listing, x))
  {
    var names := SchoolSequence(s.schoolOrder, SchoolFolders(listing));
    SchoolSequenceMembers(s.schoolOrder, listing);
    if names != [] {
      RunSchoolsOk(s, Schools(listing, names), []);
      SchoolsFail(s, listing, names);
      assert HasFolder(listing, names[0]);
    }
  }

  /** The schools run are exactly the school folders. */
  lemma SchoolSequenceMembers(order: seq<string>, listing: seq<Entry>)
    requires DistinctNames(listing)
    ensures forall x :: x in SchoolSequence(order, SchoolFolders(listing)) <==> HasFolder(listing, x)
  {
    var all := SchoolFolders(listing);
    var names := SchoolSequence(order, all);
    SchoolSequenceIsPermutation(order, all);
    forall x ensures x in names <==> HasFolder(listing, x) {
      assert x in names <==> x in multiset(names);
      assert x in all <==> x in multiset(all);
    }
  }

  /** No school of the run raises iff no school folder does. */
  lemma SchoolsFail(s: Settings, listing: seq<Entry>, names: seq<string>)
    requires forall x :: x in names <==> HasFolder(listing, x)
    ensures (forall i :: 0 <= i < |Schools(listing, names)| ==> !SchoolFails(s, Schools(listing, names)[i]))
        <==> forall x :: HasFolder(listing, x) ==> !SchoolFails(s, SchoolOf(listing, x))
  {
    var schools := Schools(listing, names);
    assert forall i :: 0 <= i < |schools| ==> schools[i] == SchoolOf(listing, names[i]);
    if forall i :: 0 <= i < |schools| ==> !SchoolFails(s, schools[i]) {
      forall x | HasFolder(listing, x) ensures !SchoolFails(s, SchoolOf(listing, x)) {
        var i :| 0 <= i < |names| && names[i] == x;
        assert schools[i] == SchoolOf(listing, x);
      }
    }
  }

  /** Without school folders the run returns False before saving a page. */
  lemma NoSchoolFolders(s: Settings, listing: seq<Entry>)
    requires forall x :: !HasFolder(listing, x)
    ensures CreatePages(s, listing) == Run(false, [])
  {
    var all := SchoolFolders(listing);
    NoFolderNoSchool(listing);
    var listed := Listed(s.schoolOrder, all);
    if listed != [] {
      ListedElements(s.schoolOrder, all, listed[0]);
    }
  }

  lemma NoFolderNoSchool(listing: seq<Entry>)
    ensures (forall x :: !HasFolder(listing, x)) ==> SchoolFolders(listing) == []
  {
    var all := SchoolFolders(listing);
    if all != [] {
      assert HasFolder(listing, all[0]);
    }
  }

  /** The pages saved before a school are never taken back. */
  lemma {:induction false} RunKeepsSaved(s: Settings, schools: seq<School>, saved: seq<Page>)
    ensures saved <= RunSchools(s, schools, saved).pages
    decreases |schools|
  {
    if schools != [] {
      var r := SchoolRun(s, schools[0], |saved|);
      if r.ok {
        RunKeepsSaved(s, schools[1..], saved + r.pages);
      }
    }
  }

  /** When school `i` is the first to raise, the run returns False with the
      pages of the schools before it, and nothing of school `i` or later. */
  lemma {:induction false} RunStopsAtFailure(s: Settings, schools: seq<School>, saved: seq<Page>, i: nat)
    requires i < |schools| && SchoolFails(s, schools[i])
    requires forall j :: 0 <= j < i ==> !SchoolFails(s, schools[j])
    ensures RunSchools(s, schools, saved) == Run(false, RunSchools(s, schools[..i], saved).pages)
    decreases i
  {
    var r := SchoolRun(s, schools[0], |saved|);
    SchoolRunOk(s, schools[0], |saved|);
    if i > 0 {
      var rest := schools[1..];
      assert forall j :: 0 <= j < i - 1 ==> rest[j] == schools[j + 1];
      RunStopsAtFailure(s, rest, saved + r.pages, i - 1);
      var before := schools[..i];
      assert before[0] == schools[0] && before[1..] == rest[..i - 1];
    }
  }

  // ---------------------------------------------------------------------------
  // Every card is pasted once, in order

  /** The card files of a page's tiles, in pasting order. */
  function TileCards(tiles: seq<Tile>): (r: seq<string>)
    ensures |r| == |tiles| && forall i :: 0 <= i < |tiles| ==> r[i] == tiles[i].card
  {
    seq(|tiles|, i requires 0 <= i < |tiles| => tiles[i].card)
  }

  /** The card files of a sequence of pages, page after page. */
  function PageCards(pages: seq<Page>): seq<string>
  {
    if pages == [] then []
    else PageCards(pages[..|pages| - 1]) + TileCards(pages[|pages| - 1].tiles)
  }

  lemma {:induction false} PageCardsAppend(a: seq<Page>, b: seq<Page>)
    ensures PageCards(a + b) == PageCards(a) + PageCards(b)
    decreases |b|
  {
    if b != [] {
      var init := b[..|b| - 1];
      assert (a + b)[..|a + b| - 1] == a + init;
      assert (a + b)[|a + b| - 1] == b[|b| - 1];
      PageCardsAppend(a, init);
    } else {
      assert a + b == a;
    }
  }

  /** The first `m` pages of a school show its cards up to the end of page `m - 1`. */
  lemma {:induction false} PagesBeforeCards(s: Settings, school: string, files: seq<string>, g: Grid, hasIcon: bool, first: nat, m: nat)
    requires Paged(s, g, |files|) && 1 <= m <= Max(g.totalPages, 0)
    ensures 0 <= PageEnd(s, g, |files|, m - 1) <= |files|
    ensures PageCards(PagesBefore(s, school, files, g, hasIcon, first, m)) == files[..PageEnd(s, g, |files|, m - 1)]
    decreases m
  {
    if m == 1 {
      FirstPageCards(s, school, files, g, hasIcon, first);
    } else {
      PagesBeforeCards(s, school, files, g, hasIcon, first, m - 1);
      NextPageCards(s, school, files, g, hasIcon, first, m);
    }
  }

  lemma FirstPageCards(s: Settings, school: string, files: seq<string>, g: Grid, hasIcon: bool, first: nat)
    requires Paged(s, g, |files|) && 1 <= g.totalPages
    ensures 0 <= PageEnd(s, g, |files|, 0) <= |files|
    ensures PageCards(PagesBefore(s, school, files, g, hasIcon, first, 1)) == files[..PageEnd(s, g, |files|, 0)]
  {
    LastPageCards(s, school, files, g, hasIcon, first, 1);
    var start, end := PageStart(s, g, 0), PageEnd(s, g, |files|, 0);
    assert PagesBefore(s, school, files, g, hasIcon, first, 0) == [];
    assert start == 0;
    assert files[start..end] == files[..end];
  }

  lemma NextPageCards(s: Settings, school: string, files: seq<string>, g: Grid, hasIcon: bool, first: nat, m: nat)
    requires Paged(s, g, |files|) && 2 <= m <= g.totalPages
    requires 0 <= PageEnd(s, g, |files|, m - 2) <= |files|
    requires PageCards(PagesBefore(s, school, files, g, hasIcon, first, m - 1)) == files[..PageEnd(s, g, |files|, m - 2)]
    ensures 0 <= PageEnd(s, g, |files|, m - 1) <= |files|
    ensures PageCards(PagesBefore(s, school, files, g, hasIcon, first, m)) == files[..PageEnd(s, g, |files|, m - 1)]
  {
    LastPageCards(s, school, files, g, hasIcon, first, m);
    PageRange(s, g, |files|, m - 2);
    PrefixExtend(files, PageStart(s, g, m - 1), PageEnd(s, g, |files|, m - 1));
  }

  lemma PrefixExtend(files: seq<string>, start: int, end: int)
    requires 0 <= start <= end <= |files|
    ensures files[..start] + files[start..end] == files[..end]
  {
  }

  /** Page `m - 1` adds the cards of its range. */
  lemma LastPageCards(s: Settings, school: string, files: seq<string>, g: Grid, hasIcon: bool, first: nat, m: nat)
    requires Paged(s, g, |files|) && 1 <= m <= Max(g.totalPages, 0)
    ensures 0 <= PageStart(s, g, m - 1) <= PageEnd(s, g, |files|, m - 1) <= |files|
    ensures PageCards(PagesBefore(s, school, files, g, hasIcon, first, m))
         == PageCards(PagesBefore(s, school, files, g, hasIcon, first, m - 1))
            + files[PageStart(s, g, m - 1)..PageEnd(s, g, |files|, m - 1)]
  {
    PageRange(s, g, |files|, m - 1);
    var pages := PagesBefore(s, school, files, g, hasIcon, first, m);
    var init := PagesBefore(s, school, files, g, hasIcon, first, m - 1);
    var last := SchoolPage(s, school, files, g, hasIcon, first, m - 1);
    assert pages == init + [last];
    assert pages[..m - 1] == init;
  }

  /** The cards a school's pages show: all of them, unless the school has no
      cards, raises, or has a negative page capacity (then no page is made). */
  function LaidOut(s: Settings, c: School): seq<string>
  {
    if c.cards == [] then []
    else
      match SchoolGrid(s, c.cardHeight, |c.cards|)
      case Raised(_) => []
      case Ok(g) => if CardsPerPage(s, g) > 0 then c.cards else []
  }

  /** A school's pages show the cards it lays out, each once, in order. */
  lemma SchoolRunCards(s: Settings, c: School, first: nat)
    requires SchoolRun(s, c, first).ok
    ensures PageCards(SchoolRun(s, c, first).pages) == LaidOut(s, c)
  {
    if c.cards != [] {
      var g := SchoolGrid(s, c.cardHeight, |c.cards|).value;
      var cpp, t := CardsPerPage(s, g), g.totalPages;
      if cpp > 0 {
        assert t >= 1 by {
          if t < 1 { MulMonotone(t, 0, cpp); }
        }
        PagesBeforeCards(s, c.name, c.cards, g, c.hasIcon, first, t);
        PageRange(s, g, |c.cards|, t - 1);
        assert c.cards[..|c.cards|] == c.cards;
      }
    }
  }

  /** With cards in a row, a positive row pitch and room for the header, a
      school that does not raise lays out all its cards. */
  lemma LaidOutAll(s: Settings, c: School)
    requires s.cardsPerRow > 0 && c.cardHeight + RowGap > 0 && AvailableHeight(s) >= 0
    requires !SchoolFails(s, c)
    ensures LaidOut(s, c) == c.cards
  {
    if c.cards != [] {
      var g := SchoolGrid(s, c.cardHeight, |c.cards|).value;
      var h := c.cardHeight + RowGap;
      assert g.cardsPerColumn == FloorDiv(AvailableHeight(s), h) != 0;
      FloorDivNonNegative(AvailableHeight(s), h);
      MulMonotone(1, g.cardsPerColumn, s.cardsPerRow);
    }
  }

  /** The cards of all schools laid out, school after school. */
  function AllLaidOut(s: Settings, schools: seq<School>): seq<string>
    decreases |schools|
  {
    if schools == [] then [] else LaidOut(s, schools[0]) + AllLaidOut(s, schools[1..])
  }

  /** A successful run pastes the cards of each school in school order and, in
      each school, in card order, every card once. */
  lemma {:induction false} RunCards(s: Settings, schools: seq<School>, saved: seq<Page>)
    requires RunSchools(s, schools, saved).ok
    ensures PageCards(RunSchools(s, schools, saved).pages) == PageCards(saved) + AllLaidOut(s, schools)
    decreases |schools|
  {
    if schools != [] {
      var r := SchoolRun(s, schools[0], |saved|);
      SchoolRunCards(s, schools[0], |saved|);
      PageCardsAppend(saved, r.pages);
      RunCards(s, schools[1..], saved + r.pages);
    }
  }

  // ---------------------------------------------------------------------------
  // Geometry of a page

  /** `grid` is the grid that a school of `n` cards gets. */
  predicate GridOf(s: Settings, g: Grid, n: nat)
  {
    SchoolGrid(s, g.cardHeight, n) == Ok(g)
  }

  /** Position `p` of a page goes to column `p % cardsPerRow` of row
      `p // cardsPerRow`, a slot of the grid; the slot gives `p` back, so two
      positions never share a slot. */
  lemma Slot(s: Settings, g: Grid, p: int)
    requires s.cardsPerRow > 0 && 0 <= p < CardsPerPage(s, g)
    ensures 0 <= Col(s, p) < s.cardsPerRow && 0 <= Row(s, p) < g.cardsPerColumn
    ensures p == Row(s, p) * s.cardsPerRow + Col(s, p)
  {
    var row := Row(s, p);
    if row >= g.cardsPerColumn {
      MulMonotone(g.cardsPerColumn, row, s.cardsPerRow);
    }
    if row < 0 {
      MulMonotone(row, -1, s.cardsPerRow);
    }
  }

  /** A tile lies below the header band (the icon is 180 px high at the top
      margin) and keeps at least the 20 px gaps to the right and bottom margins. */
  predicate Inside(s: Settings, t: Tile)
  {
    && s.margin <= t.x && t.x + t.width + CardGap <= s.width - s.margin
    && s.margin + HeaderHeight <= t.y && t.y + t.height + RowGap <= s.height - s.margin
  }

  /** Two tiles are at least the gaps apart, side by side or one above the other. */
  predicate Apart(a: Tile, b: Tile)
  {
    || a.x + a.width + CardGap <= b.x || b.x + b.width + CardGap <= a.x
    || a.y + a.height + RowGap <= b.y || b.y + b.height + RowGap <= a.y
  }

  lemma TileInside(s: Settings, g: Grid, n: nat, card: string, p: int)
    requires s.cardsPerRow > 0 && GridOf(s, g, n) && !BadCardSize(g) && 0 <= p < CardsPerPage(s, g)
    ensures Inside(s, CardTile(s, g, card, p))
  {
    Slot(s, g, p);
    AxisInside(Col(s, p), s.cardsPerRow, g.cardWidth + CardGap, AvailableWidth(s));
    AxisInside(Row(s, p), g.cardsPerColumn, g.cardHeight + RowGap, AvailableHeight(s));
  }

  lemma TilesApart(s: Settings, g: Grid, card: string, card': string, p: int, q: int)
    requires s.cardsPerRow > 0 && !BadCardSize(g)
    requires 0 <= p < CardsPerPage(s, g) && 0 <= q < CardsPerPage(s, g) && p != q
    ensures Apart(CardTile(s, g, card, p), CardTile(s, g, card', q))
  {
    Slot(s, g, p);
    Slot(s, g, q);
    var w, h := g.cardWidth + CardGap, g.cardHeight + RowGap;
    if Col(s, p) < Col(s, q) {
      AxisApart(Col(s, p), Col(s, q), w);
    } else if Col(s, q) < Col(s, p) {
      AxisApart(Col(s, q), Col(s, p), w);
    } else if Row(s, p) < Row(s, q) {
      AxisApart(Row(s, p), Row(s, q), h);
    } else {
      AxisApart(Row(s, q), Row(s, p), h);
    }
  }

  /** Slot `i` of `n` slots of pitch `w` ends within `n * w`. */
  lemma AxisInside(i: int, n: int, w: int, avail: int)
    requires 0 <= i < n && 0 < w && n * w <= avail
    ensures 0 <= i * w && i * w + w <= avail
  {
    MulMonotone(0, i, w);
    MulMonotone(i + 1, n, w);
    assert i * w + w == (i + 1) * w;
  }

  /** An earlier slot of pitch `w` ends a full pitch before a later one starts. */
  lemma AxisApart(i: int, j: int, w: int)
    requires i < j && 0 < w
    ensures i * w + w <= j * w
  {
    MulMonotone(i + 1, j, w);
    assert i * w + w == (i + 1) * w;
  }

  /** A page holds at least one card, every card inside the page and clear of
      the header band, no two cards closer than the gaps. */
  predicate PageLaidOut(s: Settings, page: Page)
  {
    && |page.tiles| >= 1
    && (forall i :: 0 <= i < |page.tiles| ==> Inside(s, page.tiles[i]))
    && (forall i, j :: 0 <= i < j < |page.tiles| ==> Apart(page.tiles[i], page.tiles[j]))
  }

  lemma SchoolPageLaidOut(s: Settings, c: School, first: nat, k: int)
    requires s.cardsPerRow > 0 && 0 <= k < |SchoolRun(s, c, first).pages|
    ensures PageLaidOut(s, SchoolRun(s, c, first).pages[k])
  {
    SchoolRunPage(s, c, first, k);
    var n := |c.cards|;
    var g := SchoolGrid(s, c.cardHeight, n).value;
    PageRange(s, g, n, k);
    var start, end := PageStart(s, g, k), PageEnd(s, g, n, k);
    var tiles := SchoolRun(s, c, first).pages[k].tiles;
    assert tiles == Tiles(s, g, c.cards, start, end);
    forall i | 0 <= i < |tiles| ensures Inside(s, tiles[i]) {
      TileInside(s, g, n, c.cards[start + i], i);
    }
    forall i, j | 0 <= i < j < |tiles| ensures Apart(tiles[i], tiles[j]) {
      TilesApart(s, g, c.cards[start + i], c.cards[start + j], i, j);
    }
  }

  predicate PagesLaidOut(s: Settings, pages: seq<Page>)
  {
    forall k :: 0 <= k < |pages| ==> PageLaidOut(s, pages[k])
  }

  lemma SchoolRunLaidOut(s: Settings, c: School, first: nat)
    requires s.cardsPerRow > 0
    ensures PagesLaidOut(s, SchoolRun(s, c, first).pages)
  {
    forall k | 0 <= k < |SchoolRun(s, c, first).pages| ensures PageLaidOut(s, SchoolRun(s, c, first).pages[k]) {
      SchoolPageLaidOut(s, c, first, k);
    }
  }

  lemma LaidOutAppend(s: Settings, a: seq<Page>, b: seq<Page>)
    requires PagesLaidOut(s, a) && PagesLaidOut(s, b)
    ensures PagesLaidOut(s, a + b)
  {
    forall k | 0 <= k < |a + b| ensures PageLaidOut(s, (a + b)[k]) {
      if k < |a| { assert (a + b)[k] == a[k]; } else { assert (a + b)[k] == b[k - |a|]; }
    }
  }

  /** With a positive row length, every page a run saves is laid out. */
  lemma {:induction false} RunLaidOut(s: Settings, schools: seq<School>, saved: seq<Page>)
    requires s.cardsPerRow > 0 && PagesLaidOut(s, saved)
    ensures PagesLaidOut(s, RunSchools(s, schools, saved).pages)
    decreases |schools|
  {
    if schools != [] {
      var r := SchoolRun(s, schools[0], |saved|);
      if r.ok {
        SchoolRunLaidOut(s, schools[0], |saved|);
        LaidOutAppend(s, saved, r.pages);
        RunLaidOut(s, schools[1..], saved + r.pages);
      }
    }
  }

  lemma CreatePagesLaidOut(s: Settings, listing: seq<Entry>)
    requires s.cardsPerRow > 0
    ensures PagesLaidOut(s, CreatePages(s, listing).pages)
  {
    var names := SchoolSequence(s.schoolOrder, SchoolFolders(listing));
    if names != [] {
      RunLaidOut(s, Schools(listing, names), []);
    }
  }

  /** With `cards_per_row` absent from the configuration (four per row) or
      positive, every page the run saves is laid out inside the page. */
  lemma ConfiguredPagesLaidOut(c: Config, width: int, height: int, listing: seq<Entry>)
    requires c.cardsPerRow.Some? ==> c.cardsPerRow.value > 0
    ensures var s := SettingsOf(c, width, height); PagesLaidOut(s, CreatePages(s, listing).pages)
  {
    CreatePagesLaidOut(SettingsOf(c, width, height), listing);
  }

  /** A successful run shows the cards of its schools in school order, each
      school's in card order. */
  lemma CreatePagesCards(s: Settings, listing: seq<Entry>)
    requires CreatePages(s, listing).ok
    ensures PageCards(CreatePages(s, listing).pages)
         == AllLaidOut(s, Schools(listing, SchoolSequence(s.schoolOrder, SchoolFolders(listing))))
  {
    var names := SchoolSequence(s.schoolOrder, SchoolFolders(listing));
    RunCards(s, Schools(listing, names), []);
  }
}
