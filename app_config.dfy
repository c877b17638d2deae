/** The settings panel's configuration (Main.py): the configuration written when
    no file exists yet, and the "school order" text field, which is shown as the
    configured names joined with ", " and read back by splitting at commas,
    stripping every piece and dropping the blank ones. */
module AppConfig {
  import opened Builtins

  /** The keys of the configuration file. */
  datatype Config = Config(
    fontPath: string,
    cardsPerRow: int,
    cardsFolder: string,
    pagesFolder: string,
    studentsPdf: string,
    dpi: int,
    margin: int,
    schoolOrder: seq<string>)

  /** What reading `config.json` finds. */
  datatype ConfigFile = Missing | Unreadable | Present(config: Config)

  /** The contents of a freshly created configuration file. */
  function DefaultConfig(): Config
  {
    Config(
      fontPath := "",
      cardsPerRow := 3,
      cardsFolder := "character_cards",
      pagesFolder := "pages",
      studentsPdf := "students.pdf",
      dpi := 300,
      margin := 80,
      schoolOrder := ["阿拜多斯", "圣三一", "格黑娜", "千年"])
  }

  /** `load_config`: the parsed file; when there is none, the defaults (which
      are also written out); when it cannot be read, an empty dictionary (None),
      so that every later lookup falls back to its own default. */
  function LoadConfig(file: ConfigFile): (r: Option<Config>)
    ensures file.Present? ==> r == Some(file.config)
    ensures file.Unreadable? ==> r == None
    ensures file.Missing? ==> r.Some? && r.value.cardsPerRow == 3 && r.value.margin == 80
                                && r.value.dpi == 300 && |r.value.schoolOrder| == 4
                                && Distinct(r.value.schoolOrder)
  {
    match file
    case Missing => Some(DefaultConfig())
    case Unreadable => None
    case Present(c) => Some(c)
  }

  // ---------------------------------------------------------------------------
  // The school-order text field

  /** A name the field can carry: non-empty, without a comma, and without
      whitespace at either end. */
  predicate SchoolName(e: string)
  {
    e != [] && ',' !in e && Stripped(e)
  }

  /** `[s.strip() for s in pieces if s.strip()]`. */
  function CleanPieces(pieces: seq<string>): (r: seq<string>)
    ensures |r| <= |pieces|
    ensures forall i :: 0 <= i < |r| ==> r[i] != [] && Stripped(r[i])
  {
    if pieces == [] then []
    else
      var t := Strip(pieces[0]);
      if t == [] then CleanPieces(pieces[1..]) else [t] + CleanPieces(pieces[1..])
  }

  /** Stripping adds no character, so pieces without a comma stay so. */
  lemma {:induction false} CleanPiecesNoComma(pieces: seq<string>)
    requires forall i :: 0 <= i < |pieces| ==> ',' !in pieces[i]
    ensures forall i :: 0 <= i < |CleanPieces(pieces)| ==> ',' !in CleanPieces(pieces)[i]
    decreases |pieces|
  {
    if pieces != [] {
      CleanPiecesNoComma(pieces[1..]);
      NoCommaCons(pieces[0], CleanPieces(pieces[1..]));
    }
  }

  lemma NoCommaCons(x: string, r: seq<string>)
    requires ',' !in x
    requires forall i :: 0 <= i < |r| ==> ',' !in r[i]
    ensures forall i :: 0 <= i < |[Strip(x)] + r| ==> ',' !in ([Strip(x)] + r)[i]
  {
    var t := [Strip(x)] + r;
    forall i | 0 <= i < |t| ensures ',' !in t[i] {
      if i > 0 { assert t[i] == r[i - 1]; }
    }
  }

  /** The parse in `save_config`: the text of the field becomes the list of
      school names. */
  function ParseSchoolOrder(text: string): (r: seq<string>)
    ensures forall i :: 0 <= i < |r| ==> SchoolName(r[i])
  {
    CleanPiecesNoComma(Split(text, ','));
    CleanPieces(Split(text, ','))
  }

  /** How `create_widgets` and `update_display` show the list in the field. */
  function DisplaySchoolOrder(names: seq<string>): string
  {
    Join(names, ", ")
  }

  lemma {:induction false} CleanPiecesConcat(a: seq<string>, b: seq<string>)
    ensures CleanPieces(a + b) == CleanPieces(a) + CleanPieces(b)
    decreases |a|
  {
    if a == [] {
      assert a + b == b;
    } else {
      assert (a + b)[0] == a[0];
      assert (a + b)[1..] == a[1..] + b;
      CleanPiecesConcat(a[1..], b);
      var t := Strip(a[0]);
      if t != [] {
        AppendAssoc([t], CleanPieces(a[1..]), CleanPieces(b));
      }
    }
  }

  /** The pieces on either side of a comma are read independently and in
      order: nothing is merged, reordered or lost at the comma. */
  lemma ParseConcat(a: string, b: string)
    ensures ParseSchoolOrder(a + "," + b) == ParseSchoolOrder(a) + ParseSchoolOrder(b)
  {
    SplitConcat(a, b, ',');
    CleanPiecesConcat(Split(a, ','), Split(b, ','));
  }

  /** A text without a comma gives its stripped self, or nothing when blank. */
  lemma ParseOnePiece(s: string)
    requires ',' !in s
    ensures ParseSchoolOrder(s) == if Strip(s) == [] then [] else [Strip(s)]
  {
    SplitNoSeparator(s, ',');
  }

  /** Whitespace before the first piece is ignored. */
  lemma ParseLeadingSpace(c: char, s: string)
    requires IsSpace(c)
    ensures ParseSchoolOrder([c] + s) == ParseSchoolOrder(s)
  {
    var p := Split(s, ',');
    var first := [c] + p[0];
    assert c != ',';
    assert Split([c] + s, ',') == [first] + p[1..] by {
      assert ([c] + s)[1..] == s;
    }
    StripLeadingSpace(c, p[0]);
    CleanPiecesCons(first, p[1..]);
  }

  lemma CleanPiecesCons(x: string, rest: seq<string>)
    ensures CleanPieces([x] + rest) == (if Strip(x) == [] then [] else [Strip(x)]) + CleanPieces(rest)
  {
    var t := [x] + rest;
    assert t[0] == x && t[1..] == rest;
  }

  lemma DisplayEmpty()
    ensures ParseSchoolOrder(DisplaySchoolOrder([])) == []
  {
    assert DisplaySchoolOrder([]) == "";
    assert Split("", ',') == [""];
    CleanPiecesCons("", []);
    assert [""] + [] == [""];
  }

  lemma DisplaySingle(x: string)
    requires SchoolName(x)
    ensures ParseSchoolOrder(DisplaySchoolOrder([x])) == [x]
  {
    assert DisplaySchoolOrder([x]) == x;
    ParseOnePiece(x);
    StripStripped(x);
  }

  lemma DisplayCons(x: string, rest: seq<string>)
    requires SchoolName(x) && rest != []
    ensures ParseSchoolOrder(DisplaySchoolOrder([x] + rest))
            == [x] + ParseSchoolOrder(DisplaySchoolOrder(rest))
  {
    var tail := DisplaySchoolOrder(rest);
    assert ([x] + rest)[1..] == rest;
    assert DisplaySchoolOrder([x] + rest) == x + "," + (" " + tail);
    ParseConcat(x, " " + tail);
    ParseOnePiece(x);
    StripStripped(x);
    ParseLeadingSpace(' ', tail);
  }

  /** Showing a list of school names in the field and saving it gives the
      same list back. */
  lemma {:induction false} DisplayRoundTrip(names: seq<string>)
    requires forall i :: 0 <= i < |names| ==> SchoolName(names[i])
    ensures ParseSchoolOrder(DisplaySchoolOrder(names)) == names
    decreases |names|
  {
    if |names| == 0 {
      DisplayEmpty();
    } else if |names| == 1 {
      DisplaySingle(names[0]);
      assert names == [names[0]];
    } else {
      DisplayRoundTrip(names[1..]);
      DisplayCons(names[0], names[1..]);
      assert names == [names[0]] + names[1..];
    }
  }

  /** Saving the field again after it was redisplayed changes nothing. */
  lemma ParseDisplayParse(text: string)
    ensures ParseSchoolOrder(DisplaySchoolOrder(ParseSchoolOrder(text))) == ParseSchoolOrder(text)
  {
    DisplayRoundTrip(ParseSchoolOrder(text));
  }

  /** The default order survives being shown and saved. */
  lemma DefaultOrderRoundTrip()
    ensures ParseSchoolOrder(DisplaySchoolOrder(DefaultConfig().schoolOrder)) == DefaultConfig().schoolOrder
  {
    var order := DefaultConfig().schoolOrder;
    forall i | 0 <= i < |order| ensures SchoolName(order[i]) {
      assert order[i] in ["阿拜多斯", "圣三一", "格黑娜", "千年"];
    }
    DisplayRoundTrip(order);
  }
}
