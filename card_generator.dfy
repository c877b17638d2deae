/** The character-card generator (character_card_generator.py): the file and
    display names made from a character's name, the choice between the normal
    and the special-form image addresses, the size of a composed card and
    where its two images go, the centred crop of a local image, and the count
    of cards a batch creates.

    Downloads, prompts, image decoding, drawing and saving are effects outside
    the model: what a download produced is an input (the size of the image it
    gave, or nothing), so is whether the card could be written, and the URL
    quoting of the HTTP library is a parameter. */
module CardGenerator {
  import opened Builtins

  // ---------------------------------------------------------------------------
  // File names (line 55)

  /** The characters `safe_filename` deletes: `\ / * ? : " < > |` and whitespace. */
  predicate IsUnsafe(c: char)
  {
    c in "\\/*?:\"<>|" || IsSpace(c)
  }

  /** `safe_filename`: the name with every unsafe character deleted. */
  function SafeFilename(name: string): (r: string)
    ensures forall i :: 0 <= i < |r| ==> !IsUnsafe(r[i])
    ensures |r| <= |name|
  {
    if name == [] then []
    else (if IsUnsafe(name[0]) then [] else [name[0]]) + SafeFilename(name[1..])
  }

  /** `a` is `b` with some characters deleted. */
  predicate IsSubsequence(a: string, b: string)
    decreases |b|
  {
    if a == [] then true
    else if b == [] then false
    else if a[0] == b[0] then IsSubsequence(a[1..], b[1..])
    else IsSubsequence(a, b[1..])
  }

  /** What is kept is a subsequence of the name, and every safe character of
      the name is kept as often as it occurs: only the unsafe ones go. */
  lemma {:induction false} SafeFilenameDeletesOnlyUnsafe(name: string)
    ensures IsSubsequence(SafeFilename(name), name)
    ensures forall c :: !IsUnsafe(c) ==> multiset(SafeFilename(name))[c] == multiset(name)[c]
    decreases |name|
  {
    if name != [] {
      var rest := SafeFilename(name[1..]);
      SafeFilenameDeletesOnlyUnsafe(name[1..]);
      assert name == [name[0]] + name[1..];
      if IsUnsafe(name[0]) {
        assert SafeFilename(name) == rest;
        SubsequenceSkip(rest, name[0], name[1..]);
        assert IsSubsequence(rest, [name[0]] + name[1..]);
      } else {
        assert ([name[0]] + rest)[1..] == rest;
      }
    }
  }

  /** A character put in front of `b` may be skipped. */
  lemma {:induction false} SubsequenceSkip(a: string, c: char, b: string)
    requires IsSubsequence(a, b)
    ensures IsSubsequence(a, [c] + b)
    decreases |b|, 1
  {
    assert ([c] + b)[1..] == b;
    if a != [] && a[0] == c {
      SubsequenceDropFirst(a, b);
    }
  }

  /** Dropping the first character of `a` keeps it a subsequence. */
  lemma {:induction false} SubsequenceDropFirst(a: string, b: string)
    requires a != [] && IsSubsequence(a, b)
    ensures IsSubsequence(a[1..], b)
    decreases |b|, 0
  {
    assert b == [b[0]] + b[1..];
    if a[0] == b[0] {
      SubsequenceSkip(a[1..], b[0], b[1..]);
    } else {
      SubsequenceDropFirst(a, b[1..]);
      SubsequenceSkip(a[1..], b[0], b[1..]);
    }
  }

  /** A name without unsafe characters is its own file name. */
  lemma {:induction false} SafeFilenameOfSafe(name: string)
    requires forall i :: 0 <= i < |name| ==> !IsUnsafe(name[i])
    ensures SafeFilename(name) == name
    decreases |name|
  {
    if name != [] {
      SafeFilenameOfSafe(name[1..]);
      assert name == [name[0]] + name[1..];
    }
  }

  /** Making a file name safe twice changes nothing more. */
  lemma SafeFilenameIdempotent(name: string)
    ensures SafeFilename(SafeFilename(name)) == SafeFilename(name)
  {
    SafeFilenameOfSafe(SafeFilename(name));
  }

  /** The deletion works character by character. */
  lemma {:induction false} SafeFilenameConcat(a: string, b: string)
    ensures SafeFilename(a + b) == SafeFilename(a) + SafeFilename(b)
    decreases |a|
  {
    if a == [] {
      assert a + b == b;
    } else {
      assert (a + b)[0] == a[0] && (a + b)[1..] == a[1..] + b;
      SafeFilenameConcat(a[1..], b);
    }
  }

  /** The output file of a character, `{safe_name}_card.png` (lines 293 and 346). */
  function CardFileName(name: string): string
  {
    SafeFilename(name) + "_card.png"
  }

  // ---------------------------------------------------------------------------
  // Special forms (lines 60-64 and 147-161)

  /** `name.split('/', 1)` of a name with a `/`: the base name before the
      first `/` and the form name after it. */
  function SplitForm(name: string): (r: (string, string))
    requires '/' in name
    ensures name == r.0 + "/" + r.1 && '/' !in r.0
  {
    var i := FirstIndex(name, '/');
    assert name == name[..i] + "/" + name[i + 1..];
    (name[..i], name[i + 1..])
  }

  /** The split is the only one with a base name free of `/`: whatever follows
      the first `/`, further `/` included, is the form. */
  lemma SplitFormUnique(base: string, form: string)
    requires '/' !in base
    ensures '/' in base + "/" + form
    ensures SplitForm(base + "/" + form) == (base, form)
  {
    var name := base + "/" + form;
    var r := SplitForm(name);
    assert name[|base|] == '/' && name[|r.0|] == '/';
    assert forall k :: 0 <= k < |base| ==> name[k] == base[k];
    assert forall k :: 0 <= k < |r.0| ==> name[k] == r.0[k];
    assert |r.0| == |base|;
    assert r.0 == name[..|r.0|] && base == name[..|base|];
    assert r.1 == name[|r.0| + 1..] && form == name[|base| + 1..];
  }

  /** `format_display_name`: `base/form` is shown as `base(form)`. */
  function FormatDisplayName(name: string): (r: string)
    ensures '/' !in name ==> r == name
    ensures '/' in name ==> |r| == |name| + 1 && r[|r| - 1] == ')'
  {
    if '/' in name then
      var (base, form) := SplitForm(name);
      base + "(" + form + ")"
    else name
  }

  lemma DisplayNameOfForm(base: string, form: string)
    requires '/' !in base
    ensures FormatDisplayName(base + "/" + form) == base + "(" + form + ")"
  {
    SplitFormUnique(base, form);
  }

  lemma DisplayNameExamples()
    ensures FormatDisplayName("a/b") == "a(b)"
    ensures FormatDisplayName("a/b/c") == "a(b/c)"
    ensures FormatDisplayName("abc") == "abc"
  {
    assert "a/b" == "a" + "/" + "b";
    DisplayNameOfForm("a", "b");
    assert "a/b/c" == "a" + "/" + "b/c";
    DisplayNameOfForm("a", "b/c");
  }

  /** An address with the place of `{}` marked: the text before and after it. */
  datatype UrlPattern = UrlPattern(before: string, after: string)

  function Format(p: UrlPattern, arg: string): string
  {
    p.before + arg + p.after
  }

  const StudentsBase := "https://static.kivo.wiki/images/students/"

  /** The patterns tried in turn for a normal character (lines 15-23). */
  const AvatarUrlPatterns: seq<UrlPattern> :=
    [UrlPattern(StudentsBase, "/avatar.png"), UrlPattern(StudentsBase, "/original/avatar.png")]
  const SdModelUrlPatterns: seq<UrlPattern> :=
    [UrlPattern(StudentsBase, "/sd_model.png"), UrlPattern(StudentsBase, "/original/sd_model.png")]

  /** The addresses `get_special_form_urls` returns, and its flag. */
  datatype FormUrls = FormUrls(avatarUrl: string, sdModelUrl: string, isSpecialForm: bool)

  /** `get_special_form_urls`, with the HTTP library's URL quoting as `quote`. */
  function GetSpecialFormUrls(name: string, quote: string -> string): (r: FormUrls)
    ensures r.isSpecialForm <==> '/' in name
  {
    if '/' in name then
      var (base, form) := SplitForm(name);
      var dir := quote(base) + "/" + quote(form);
      FormUrls(StudentsBase + dir + "/avatar.png", StudentsBase + dir + "/sd_model.png", true)
    else
      var encoded := quote(name);
      FormUrls(Format(AvatarUrlPatterns[0], encoded), Format(SdModelUrlPatterns[0], encoded), false)
  }

  /** For `base/form` both addresses lie under `<quoted base>/<quoted form>/`. */
  lemma SpecialFormUrls(base: string, form: string, quote: string -> string)
    requires '/' !in base
    ensures var r := GetSpecialFormUrls(base + "/" + form, quote);
      && r.isSpecialForm
      && r.avatarUrl == StudentsBase + quote(base) + "/" + quote(form) + "/avatar.png"
      && r.sdModelUrl == StudentsBase + quote(base) + "/" + quote(form) + "/sd_model.png"
  {
    SplitFormUnique(base, form);
  }

  /** For a normal name the addresses are the first of each pattern list. */
  lemma NormalFormUrls(name: string, quote: string -> string)
    requires '/' !in name
    ensures var r := GetSpecialFormUrls(name, quote);
      && !r.isSpecialForm
      && r.avatarUrl == StudentsBase + quote(name) + "/avatar.png"
      && r.sdModelUrl == StudentsBase + quote(name) + "/sd_model.png"
  {
  }

  // ---------------------------------------------------------------------------
  // The composed card (lines 205-287)

  datatype Size = Size(width: nat, height: nat)
  datatype Point = Point(x: int, y: int)

  /** The grey placeholders drawn for an image that could not be obtained. */
  const AvatarPlaceholder := Size(404, 456)
  const SdModelPlaceholder := Size(452, 452)

  /** The border rectangle is inset by this much; the divider under the name
      is drawn at this height (lines 334 and 337). */
  const BorderInset := 10
  const DividerY := 120

  /** A composed card: its size and the top-left corners of the two images. */
  datatype Layout = Layout(size: Size, avatarAt: Point, sdModelAt: Point)

  /** The card around an avatar and an SD model image of the given sizes:
      50 px margins around and between the images, 150 px above them for the
      name, the images standing on a common baseline 50 px above the bottom. */
  function CardLayout(avatar: Size, sdModel: Size): (r: Layout)
    ensures r.avatarAt.x == 50 && r.sdModelAt.x == r.avatarAt.x + avatar.width + 50
    ensures r.sdModelAt.x + sdModel.width + 50 == r.size.width
    ensures r.avatarAt.y + avatar.height == r.size.height - 50
    ensures r.sdModelAt.y + sdModel.height == r.size.height - 50
    ensures Min(r.avatarAt.y, r.sdModelAt.y) == 150
  {
    var cardWidth := 50 + avatar.width + 50 + sdModel.width + 50;
    var cardHeight := 150 + Max(avatar.height, sdModel.height) + 50;
    Layout(Size(cardWidth, cardHeight),
           Point(50, cardHeight - 50 - avatar.height),
           Point(50 + avatar.width + 50, cardHeight - 50 - sdModel.height))
  }

  /** Both images lie inside the border, below the divider, side by side. */
  lemma ImagesInsideBorder(avatar: Size, sdModel: Size)
    ensures var r := CardLayout(avatar, sdModel);
      && BorderInset < r.avatarAt.x && r.avatarAt.x + avatar.width < r.sdModelAt.x
      && r.sdModelAt.x + sdModel.width < r.size.width - BorderInset
      && DividerY < r.avatarAt.y && DividerY < r.sdModelAt.y
      && r.avatarAt.y + avatar.height < r.size.height - BorderInset
      && r.sdModelAt.y + sdModel.height < r.size.height - BorderInset
  {
  }

  /** What the outside world did for one character: the size of each of the
      two downloaded images, or nothing when every address and fallback
      failed, and whether creating the cards folder and writing the card
      there succeeded. */
  datatype Effects = Effects(avatar: Option<Size>, sdModel: Option<Size>, written: bool)

  /** A card written to the cards folder. */
  datatype Card = Card(folder: string, fileName: string, displayName: string, layout: Layout)

  /** `create_character_card`: nothing when both downloads fail; otherwise the
      card, with a placeholder in place of a missing image, saved into the
      configured cards folder. Composing and saving sit inside one `try`
      (lines 205-311): a cards folder missing from the configuration makes
      `os.makedirs(None)` raise (line 292), and so does a folder that cannot
      be created or a card that cannot be written; each of these gives False. */
  function CreateCharacterCard(name: string, d: Effects, cardsFolder: Option<string>): (r: Option<Card>)
    ensures r.None? <==> (d.avatar.None? && d.sdModel.None?) || cardsFolder.None? || !d.written
    ensures r.Some? ==> && r.value.folder == cardsFolder.value
                        && r.value.fileName == CardFileName(name)
                        && r.value.displayName == FormatDisplayName(name)
    ensures r.Some? ==> r.value.layout == CardLayout(if d.avatar.Some? then d.avatar.value else AvatarPlaceholder,
                                                     if d.sdModel.Some? then d.sdModel.value else SdModelPlaceholder)
  {
    if d.avatar.None? && d.sdModel.None? then None
    else if cardsFolder.None? || !d.written then None
    else
      var avatar := if d.avatar.Some? then d.avatar.value else AvatarPlaceholder;
      var sdModel := if d.sdModel.Some? then d.sdModel.value else SdModelPlaceholder;
      Some(Card(cardsFolder.value, CardFileName(name), FormatDisplayName(name), CardLayout(avatar, sdModel)))
  }

  /** With one image missing, the card has the placeholder's room for it. */
  lemma PlaceholderSizes(name: string, avatar: Size, folder: string)
    ensures var r := CreateCharacterCard(name, Effects(Some(avatar), None, true), Some(folder));
      && r.Some?
      && r.value.layout.size.width == 150 + avatar.width + 452
      && r.value.layout.size.height == 200 + Max(avatar.height, 452)
  {
  }

  // ---------------------------------------------------------------------------
  // The centred crop of a local image (lines 133-138)

  datatype Box = Box(left: int, top: int, right: int, bottom: int)

  /** The crop box of an image scaled to `scaled`, for the target size `target`. */
  function CropBox(scaled: Size, target: Size): (r: Box)
    ensures r.right - r.left == target.width && r.bottom - r.top == target.height
  {
    var left := FloorDiv(scaled.width - target.width, 2);
    var top := FloorDiv(scaled.height - target.height, 2);
    Box(left, top, left + target.width, top + target.height)
  }

  /** When the scaled image covers the target, the box lies inside it and
      is centred: the margins left and right (and above and below) differ by
      at most one pixel, the odd one going to the right (and the bottom). */
  lemma CropBoxCentred(scaled: Size, target: Size)
    requires scaled.width >= target.width && scaled.height >= target.height
    ensures var r := CropBox(scaled, target);
      && 0 <= r.left && r.right <= scaled.width && 0 <= r.top && r.bottom <= scaled.height
      && 0 <= (scaled.width - r.right) - r.left <= 1
      && 0 <= (scaled.height - r.bottom) - r.top <= 1
  {
  }

  // ---------------------------------------------------------------------------
  // A batch (lines 339-351)

  /** How many of the characters get a card. */
  function CountCreated(names: seq<string>, effects: seq<Effects>, cardsFolder: Option<string>): (n: nat)
    requires |effects| == |names|
    ensures n <= |names|
  {
    if names == [] then 0
    else CountCreated(names[..|names| - 1], effects[..|names| - 1], cardsFolder)
         + (if CreateCharacterCard(names[|names| - 1], effects[|names| - 1], cardsFolder).Some? then 1 else 0)
  }

  /** `batch_create_cards`: one card attempt per name, in order, counting the
      ones that succeed; `effects[i]` is what the downloads and the saving did
      for `names[i]`, and `cardsFolder` the generator's configured cards folder. */
  method BatchCreateCards(names: seq<string>, effects: seq<Effects>, cardsFolder: Option<string>) returns (successCount: nat)
    requires |effects| == |names|
    ensures successCount == CountCreated(names, effects, cardsFolder)
    ensures successCount <= |names|
  {
    successCount := 0;
    for i := 0 to |names|
      invariant successCount == CountCreated(names[..i], effects[..i], cardsFolder)
    {
      assert names[..i + 1][..i] == names[..i] && effects[..i + 1][..i] == effects[..i];
      var card := CreateCharacterCard(names[i], effects[i], cardsFolder);
      if card.Some? {
        successCount := successCount + 1;
      }
    }
    assert names[..|names|] == names && effects[..|names|] == effects;
  }

  /** Every character gets a card. */
  predicate AllCreated(names: seq<string>, effects: seq<Effects>, cardsFolder: Option<string>)
    requires |effects| == |names|
  {
    forall i :: 0 <= i < |names| ==> CreateCharacterCard(names[i], effects[i], cardsFolder).Some?
  }

  /** No character gets a card. */
  predicate NoneCreated(names: seq<string>, effects: seq<Effects>, cardsFolder: Option<string>)
    requires |effects| == |names|
  {
    forall i :: 0 <= i < |names| ==> CreateCharacterCard(names[i], effects[i], cardsFolder).None?
  }

  lemma CreatedSnoc(names: seq<string>, effects: seq<Effects>, cardsFolder: Option<string>)
    requires |effects| == |names| && names != []
    ensures var m := |names| - 1;
      AllCreated(names, effects, cardsFolder) <==>
        AllCreated(names[..m], effects[..m], cardsFolder) && CreateCharacterCard(names[m], effects[m], cardsFolder).Some?
    ensures var m := |names| - 1;
      NoneCreated(names, effects, cardsFolder) <==>
        NoneCreated(names[..m], effects[..m], cardsFolder) && CreateCharacterCard(names[m], effects[m], cardsFolder).None?
  {
    var m := |names| - 1;
    assert forall i :: 0 <= i < m ==> names[..m][i] == names[i] && effects[..m][i] == effects[i];
  }

  /** The count reaches the number of names exactly when every character
      gets a card, and is 0 exactly when none does. */
  lemma {:induction false} CountCreatedExtremes(names: seq<string>, effects: seq<Effects>, cardsFolder: Option<string>)
    requires |effects| == |names|
    ensures CountCreated(names, effects, cardsFolder) == |names| <==> AllCreated(names, effects, cardsFolder)
    ensures CountCreated(names, effects, cardsFolder) == 0 <==> NoneCreated(names, effects, cardsFolder)
    decreases |names|
  {
    if names != [] {
      var m := |names| - 1;
      CountCreatedExtremes(names[..m], effects[..m], cardsFolder);
      CreatedSnoc(names, effects, cardsFolder);
    }
  }

  /** Without a cards folder in the configuration no card is created, whatever
      the downloads gave. */
  lemma NoCardsFolderNoCards(names: seq<string>, effects: seq<Effects>)
    requires |effects| == |names|
    ensures CountCreated(names, effects, None) == 0
  {
    CountCreatedExtremes(names, effects, None);
  }
}
