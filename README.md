# BlueArchive PDF Maker: the layout core, in Dafny

BlueArchive PDF Maker is a desktop tool. It builds one card image per
character. It then lays the cards of each school out on A4 pages, one page
after another, and merges the pages into a PDF. This project models the parts
of it that are integer and string logic, and proves what they promise.

- `school_cards.dfy` (module `SchoolCards`) models `SchoolCardsToPNG.py`:
  - the school folders, sorted by name;
  - the school order: the configured schools first, in the configured order,
    then every other school by name;
  - the card files of a school, sorted stably by the number their names spell;
  - the grid of a school: card width, rows per page, cards per page and page
    count;
  - the slots and pixel positions of the cards on each page;
  - the page counter that runs across all schools and names the files
    `001.png`, `002.png`, …;
  - the header (icon and name), which goes on the first page of each school;
  - the run as a whole: it returns False when there is no school folder, or
    when a division or a resize raises. Pages saved before the failure stay
    saved.

  The methods `OrderSchools`, `GetCardFiles`, `PasteCards`, `ProcessSchool`
  and `CreatePagesBySchools` follow the loops of the source. Each one is proved
  equal to a functional definition, and the properties are lemmas about that
  definition.
- `card_generator.dfy` (module `CardGenerator`) models
  `character_card_generator.py`:
  - `safe_filename` and `format_display_name`;
  - the special-form test of `get_special_form_urls`;
  - the size of a composed card and where its two images go;
  - the centred crop box of a local image;
  - the success count of `batch_create_cards`, as a loop.
- `app_config.dfy` (module `AppConfig`) models `Main.py`:
  - the configuration written when there is no file;
  - the `school_order` text field: it is parsed by splitting at commas and
    stripping, and shown by joining with `", "`.
- `builtins.dfy` (module `Builtins`) holds the Python built-ins these rely on:
  - floor `//` and `%`, and `math.ceil` of a quotient;
  - `str.isspace`, `strip`, `split` and `join`;
  - `str.isdigit` with `int()`, and the `03d` format;
  - ordering of `str`, `sorted()`, and stable `sorted(key=…)`;
  - `list.remove`.

Things the model takes as inputs:
- **Directory listings.** A listing is the sequence of entries in the order the
  file system gives them.
- **Page size and card height.** These are computed in floating point: the A4
  size is `int(8.27 * dpi)` by `int(11.69 * dpi)`, and each school's card
  height comes from the aspect ratio of its first card. The model takes them as
  integers of either sign, since nothing bounds `dpi`.
- **Downloads and saving.** What a character's downloads produced is an input:
  the size of the image, or nothing. So is whether the card could be written to
  the cards folder.
- **URL quoting.** The HTTP library's URL quoting is a function parameter.

Two consequences of the code that are easy to miss:
- **Header offset.** `SchoolCardsToPNG.py:164` adds the 180 px offset on
  every page, not only on the first page of a school, where the header is
  drawn. So every page of the model keeps the header band free.
- **Negative cards per page.** The page capacity is
  `cards_per_row * cards_per_column` (line 122). When exactly one factor is
  negative, the capacity is negative and `math.ceil` gives a page count of zero or
  less. That can happen with a negative `cards_per_row`, or with a margin so large
  that the rows per page come out negative. The school then gets no pages and
  the run goes on to the next school. `SchoolCards.LaidOut` and
  `SchoolCards.SchoolRunCards` state this. When both factors are negative, the
  capacity is positive and the school gets pages. A negative `cards_per_row`
  on a page wider than its margins makes the card width negative (line 110),
  so the first resize (line 168) raises and the run returns False.
  `SchoolCards.SchoolRunOk` states this.

## Model

| member | source | states |
|---|---|---|
| Builtins.FloorDiv | SchoolCardsToPNG.py:110 | `//` rounds toward minus infinity, for either sign of the divisor |
| Builtins.FloorMod | SchoolCardsToPNG.py:161 | `%` has the sign of the divisor. It is what is left after `//` |
| Builtins.CeilDiv | SchoolCardsToPNG.py:122 | `math.ceil(a / b)` is the least `q` with `a <= q * b` when `b > 0`, and the mirror image when `b < 0` |
| Builtins.Format03 | SchoolCardsToPNG.py:175 | the `03d` format gives at least three digits: exactly three below 1000, and the plain decimal digits from 1000 on |
| Builtins.Format03RoundTrip | SchoolCardsToPNG.py:175 | the digits of the `03d` format spell the number back |
| Builtins.DecimalValue | SchoolCardsToPNG.py:62 | `int()` of `k` digits is below `10^k` |
| Builtins.DecimalString | SchoolCardsToPNG.py:175 | `str(n)` is a digit string without leading zero (unless it is `0`) that `int()` reads back as `n` |
| Builtins.DecimalValueLeadingZero | SchoolCardsToPNG.py:62 | `int()` ignores one leading zero |
| Builtins.DecimalValueZeros | SchoolCardsToPNG.py:62 | `int()` ignores any number of leading zeros |
| Builtins.IsDigit | SchoolCardsToPNG.py:61 | `str.isdigit` on the ASCII digits `0`-`9`, the digits `int()` reads; `DigitsOfDigits` and `DecimalValue` build on it |
| Builtins.Strip | Main.py:126 | `str.strip()` is the slice of the text that starts where the leading whitespace ends and is followed only by whitespace. It has whitespace at neither end, and is "" exactly for an all-whitespace text |
| Builtins.SpaceRunEnd | Main.py:126 | the run of whitespace from index `i` ends at the first character that is not whitespace |
| Builtins.SpaceRunStart | Main.py:126 | the run of whitespace before index `j` starts just after the last character that is not whitespace |
| Builtins.SpaceRunEndAt | Main.py:126 | a whitespace run followed by a non-space character or the end is the run `SpaceRunEnd` finds |
| Builtins.TrimStart | Main.py:126 | `lstrip()` is the suffix after the leading whitespace, and does not start with whitespace |
| Builtins.TrimEnd | Main.py:126 | `rstrip()` is the prefix before the trailing whitespace, and does not end with whitespace |
| Builtins.IsSpace | Main.py:126 | `str.isspace`, also the class `\s` at character_card_generator.py:55: the Unicode whitespace characters; `Strip` and `SafeFilename` are stated in terms of it |
| Builtins.Split | Main.py:126 | `split(",")` gives at least one piece, no piece holds a comma, and joining the pieces with the comma gives the text back |
| Builtins.SplitConcat | Main.py:126 | the pieces on both sides of a comma are split independently |
| Builtins.SplitNoSeparator | Main.py:126 | a text without a comma is one piece |
| Builtins.Join | Main.py:190 | `sep.join(parts)`: the parts with `sep` between consecutive ones; `JoinAppend` states this and `Split` is proved inverse to it |
| Builtins.JoinAppend | Main.py:190 | `", ".join` puts the separator between consecutive names |
| Builtins.SortStrings | SchoolCardsToPNG.py:46-47 | `sorted()` on `str` is ordered and is a permutation of its input |
| Builtins.StrLeTotal | SchoolCardsToPNG.py:85 | any two names are comparable |
| Builtins.StrLeTransitive | SchoolCardsToPNG.py:85 | the order of `str` is transitive |
| Builtins.StrLeAntisymmetric | SchoolCardsToPNG.py:85 | two names each ordered before the other are equal |
| Builtins.SortByKey | SchoolCardsToPNG.py:64 | `sorted(key=…)` is ordered by key and is a permutation of its input |
| Builtins.SortByKeyStable | SchoolCardsToPNG.py:64 | the elements sharing a key keep their relative order |
| Builtins.InsertByKeyStable | SchoolCardsToPNG.py:64 | inserting one element by key keeps the order among equal keys and puts it after them |
| Builtins.WithKeyConcat | SchoolCardsToPNG.py:64 | the elements with a given key of a concatenation are those of each part, in order |
| Builtins.SortOneString | SchoolCardsToPNG.py:85 | `sorted()` of one name is that name |
| Builtins.RemoveFirst | SchoolCardsToPNG.py:82 | `list.remove(x)` deletes the first occurrence of `x` and keeps the rest in order |
| Builtins.FirstIndex | SchoolCardsToPNG.py:82 | the position of the first occurrence: it holds `x`, and no earlier position does |
| Builtins.EndsWith | SchoolCardsToPNG.py:54 | `str.endswith`: the suffix is the last characters of the text; `EndsWithAfterSeparator` and `IconSuffixOnName` use it |
| Builtins.EndsWithAfterSeparator | SchoolCardsToPNG.py:54 | a suffix without `/` ends `folder/name` iff it ends `name` |
| SchoolCards.SettingsOf | SchoolCardsToPNG.py:16-22 | the configuration lookups with their fallbacks: margin 80, four cards per row, no school order (lines 71-72); `ConfiguredPagesLaidOut` states the run over these settings |
| SchoolCards.FolderNames | SchoolCardsToPNG.py:46-47 | the names kept are exactly those of sub-folders, each once |
| SchoolCards.SchoolFolders | SchoolCardsToPNG.py:45-47 | `get_school_folders` is sorted, holds exactly the sub-folders, and has no duplicates |
| SchoolCards.Listed | SchoolCardsToPNG.py:78-82 | the reference for the front of the order: each configured existing school once, where it is first configured; `ListedElements` and `ListedDistinct` state this |
| SchoolCards.Unlisted | SchoolCardsToPNG.py:82-85 | the reference for `all_schools` after the loop: the existing schools not configured, in listing order; `UnlistedElements` and `UnlistedDistinct` state this |
| SchoolCards.SchoolSequence | SchoolCardsToPNG.py:78-85 | the processing order as a reference: `Listed` followed by the sorted `Unlisted`; `OrderSchools` proves the loop computes it and `SchoolSequenceIsPermutation` what it holds |
| SchoolCards.ListedElements | SchoolCardsToPNG.py:79-81 | a school is moved to the front iff it is configured and exists |
| SchoolCards.ListedDistinct | SchoolCardsToPNG.py:79-82 | a school configured twice is moved once |
| SchoolCards.UnlistedDistinct | SchoolCardsToPNG.py:82-85 | the schools left behind have no duplicates |
| SchoolCards.UnlistedNothing | SchoolCardsToPNG.py:77 | before the loop every school remains |
| SchoolCards.UnlistedExtendUnused | SchoolCardsToPNG.py:80 | a configured name that is not a remaining school changes nothing |
| SchoolCards.UnlistedElements | SchoolCardsToPNG.py:82-85 | the schools left behind are the existing ones that are not configured |
| SchoolCards.UnlistedRemove | SchoolCardsToPNG.py:82 | `all_schools.remove(school)` leaves the schools not yet configured |
| SchoolCards.OrderStep | SchoolCardsToPNG.py:79-82 | one turn of the loop moves the configured school to the result iff it is still remaining |
| SchoolCards.OrderSchools | SchoolCardsToPNG.py:77-85 | the ordering loop yields the configured existing schools in order, then the rest sorted |
| SchoolCards.SchoolSequenceIsPermutation | SchoolCardsToPNG.py:78-85 | the school list is a duplicate-free permutation of the folders. Configured schools come first, the others follow sorted |
| SchoolCards.SchoolPartsDisjoint | SchoolCardsToPNG.py:78-85 | a school is in the configured part iff configured and existing, and in the sorted part iff existing and not configured |
| SchoolCards.DistinctAppend | SchoolCardsToPNG.py:85 | two duplicate-free parts with nothing in common join without duplicates |
| SchoolCards.SchoolSequenceExample | SchoolCardsToPNG.py:78-85 | for three distinct names, order `b, a` over folders `a, b, c` gives `b, a, c` |
| SchoolCards.MatchesGlob | SchoolCardsToPNG.py:53-54 | glob's `*<ext>` in one folder: the name ends with the extension and does not start with a dot; `GlobCards` and `CardFilesMembers` use it |
| SchoolCards.GlobCards | SchoolCardsToPNG.py:53-54 | one pattern yields the visible files with that extension, minus the icons |
| SchoolCards.Globbed | SchoolCardsToPNG.py:50-55 | the candidates of the patterns, one pattern after the other, as `card_files.extend` collects them; `CandidatesByPattern` states the order |
| SchoolCards.CardFiles | SchoolCardsToPNG.py:49-64 | `get_card_files` as a value; `CardFilesMembers` and `CardFilesOrder` state which files it yields and in what order |
| SchoolCards.GetCardFiles | SchoolCardsToPNG.py:49-64 | the extension loop and the sort compute the card files |
| SchoolCards.CandidatesByPattern | SchoolCardsToPNG.py:50-55 | `.png` files come first, then `.jpg`, then `.jpeg` |
| SchoolCards.CardFilesMembers | SchoolCardsToPNG.py:50-55 | a file is a card iff it is a visible `.png`/`.jpg`/`.jpeg` file not ending in `icon.png` |
| SchoolCards.CardFilesOrder | SchoolCardsToPNG.py:64 | cards ascend by number, and equal numbers keep the enumeration order |
| SchoolCards.IconSuffixOnName | SchoolCardsToPNG.py:54 | the `icon.png` test on the path equals the test on the file name |
| SchoolCards.StemLength | SchoolCardsToPNG.py:60 | `splitext` cuts at the last dot when something other than a dot precedes it, and does not cut only when every dot of the name has only dots before it |
| SchoolCards.Stem | SchoolCardsToPNG.py:60 | the name part of `os.path.splitext`: the name up to `StemLength`; `StemOfName` states that `stem.ext` gives `stem` |
| SchoolCards.LastDot | SchoolCardsToPNG.py:60 | the position of the last dot, or none |
| SchoolCards.StemOfName | SchoolCardsToPNG.py:60 | `stem.ext` loses exactly its extension |
| SchoolCards.DigitsOf | SchoolCardsToPNG.py:61 | `filter(str.isdigit, …)` keeps only digits |
| SchoolCards.DigitsOfDigits | SchoolCardsToPNG.py:61 | a digit string keeps all of itself |
| SchoolCards.DigitsOfNone | SchoolCardsToPNG.py:61 | a text without digits keeps nothing |
| SchoolCards.DigitsOfConcat | SchoolCardsToPNG.py:61 | the digits of a concatenation are the digits of each part, in order |
| SchoolCards.DigitsOfA1B2 | SchoolCardsToPNG.py:61 | `a1b2` keeps `12` |
| SchoolCards.ExtractNumber | SchoolCardsToPNG.py:58-62 | a stem without digits has key 0, and the key has no more digits than the stem (below `10^d` for `d` digits); `ExtractNumberOfStem` gives its value |
| SchoolCards.ExtractNumberOfStem | SchoolCardsToPNG.py:58-62 | the key of `stem.ext` is `int()` of the stem's digits, or 0 without any |
| SchoolCards.ExtractNumberOfPageFile | SchoolCardsToPNG.py:58-62 | a page file (`n` in the `03d` format, then `.png`) has key `n` |
| SchoolCards.ExtractNumberJoinsDigits | SchoolCardsToPNG.py:61-62 | `a1b2` plus any extension has key 12 |
| SchoolCards.ExtractNumberLeadingZeros | SchoolCardsToPNG.py:61-62 | leading zeros do not change the key: `007.png` has the key of `7.png` |
| SchoolCards.ExtractNumberNoDigits | SchoolCardsToPNG.py:61-62 | a stem without digits has key 0, as `card.jpeg` |
| SchoolCards.SchoolGrid | SchoolCardsToPNG.py:109-122 | the grid raises iff a divisor is zero. The width and rows are the largest that fit, and the page count is the least that holds every card |
| SchoolCards.AvailableWidth | SchoolCardsToPNG.py:109 | the canvas width less both margins; `SchoolGrid` states the card width in terms of it |
| SchoolCards.AvailableHeight | SchoolCardsToPNG.py:118 | the canvas height less both margins and the 180 px header band; `SchoolGrid` states the rows per page in terms of it |
| SchoolCards.CardsPerPage | SchoolCardsToPNG.py:122 | `cards_per_row * cards_per_column`; `SchoolGrid` and `PageRange` state the page count and ranges in terms of it |
| SchoolCards.BadCanvas | SchoolCardsToPNG.py:128 | `Image.new` raises for a canvas with a negative side (a negative `dpi`); `SchoolRunOk` states that such a school with a page fails |
| SchoolCards.BadCardSize | SchoolCardsToPNG.py:168 | `resize` raises for a card side below 1; `PasteCards` and `SchoolRunOk` state when the run fails for it |
| SchoolCards.PageRange | SchoolCardsToPNG.py:153-154 | the page ranges split the cards in order. Each range is non-empty and at most a page, and only the last may be short |
| SchoolCards.PageStart | SchoolCardsToPNG.py:153 | the first card of page `k`: `k` times the page capacity; `PageRange` states what the ranges cover |
| SchoolCards.PageEnd | SchoolCardsToPNG.py:154 | the end of page `k`'s range, cut at the last card; `PageRange` states what the ranges cover |
| SchoolCards.Tiles | SchoolCardsToPNG.py:156-171 | the tiles of a page show exactly the cards `files[start..end]`, in order, card `p` of the range at slot `p` |
| SchoolCards.Row | SchoolCardsToPNG.py:160 | the row of a position, `p // cards_per_row` (floor); `Slot` states it lies inside the grid |
| SchoolCards.Col | SchoolCardsToPNG.py:161 | the column of a position, `p % cards_per_row` (Python's sign rule); `Slot` states row and column are unique to the position |
| SchoolCards.CardTile | SchoolCardsToPNG.py:160-164 | the tile of position `p`: column `p % cpr` and row `p // cpr`, 20 px gaps, below the 180 px band; `TileInside` and `TilesApart` state where it lies |
| SchoolCards.SchoolHeader | SchoolCardsToPNG.py:132-150 | the header of a school's first page: the icon at the margin when `icon.png` exists, the name 250 px right and 60 px down of it; `SchoolRunHeaders` states which pages carry it |
| SchoolCards.PageTiles | SchoolCardsToPNG.py:153-156 | a page holds between one card and a full page |
| SchoolCards.PasteCards | SchoolCardsToPNG.py:156-171 | the card loop pastes the range, or fails at its first resize iff a card side is not positive |
| SchoolCards.Slot | SchoolCardsToPNG.py:160-161 | position `p` goes to column `p % cpr` and row `p // cpr`, inside the grid. The slot gives `p` back, so two positions never share one |
| SchoolCards.AxisInside | SchoolCardsToPNG.py:163-164 | a slot's extent ends within the space available |
| SchoolCards.AxisApart | SchoolCardsToPNG.py:163-164 | an earlier slot ends a full pitch before a later one |
| SchoolCards.TileInside | SchoolCardsToPNG.py:163-164 | a card lies within the margins, 20 px clear of the right and bottom margins, and below the 180 px header band |
| SchoolCards.TilesApart | SchoolCardsToPNG.py:163-164 | two cards of a page are at least 20 px apart across or down |
| SchoolCards.PagesBeforeAt | SchoolCardsToPNG.py:126 | the `k`-th page made is page `k` of the grid |
| SchoolCards.PagesBefore | SchoolCardsToPNG.py:126 | the loop over `range(total_pages)` makes one page per turn |
| SchoolCards.SchoolPages | SchoolCardsToPNG.py:126 | a school makes `total_pages` pages, none when that is not positive |
| SchoolCards.SchoolPagesAt | SchoolCardsToPNG.py:126 | a school's pages follow its grid page by page |
| SchoolCards.SchoolPage | SchoolCardsToPNG.py:126-176 | page `k` of a school: numbered on from the pages before, the header on page 0 only, the tiles of range `k`; `SchoolRunHeaders`, `SchoolPageLaidOut` and `PagesNumberedInOrder` state its properties |
| SchoolCards.ReadSchool | SchoolCardsToPNG.py:98-100 | a school is read as its card files, card height and icon test |
| SchoolCards.SchoolOf | SchoolCardsToPNG.py:98-115 | what the run reads about a school: its card files, the card height and whether `icon.png` exists; `ReadSchool` computes it and `CardFilesMembers` states which cards it holds |
| SchoolCards.NextSchool | SchoolCardsToPNG.py:96-100 | the loop reads the schools in the computed order |
| SchoolCards.SchoolRun | SchoolCardsToPNG.py:102-178 | a school that raises saves no page: a division by zero, creating its first page or its first resize |
| SchoolCards.ProcessSchool | SchoolCardsToPNG.py:102-178 | the school body skips a school with no cards. It raises on a zero divisor, a negative canvas or a bad card size, and otherwise saves its pages numbered on from the counter |
| SchoolCards.NextSchoolPage | SchoolCardsToPNG.py:126-176 | one turn of the page loop appends page `k`, numbered on from the counter, with the header only when `k` is 0 |
| SchoolCards.RunSchoolsAdvance | SchoolCardsToPNG.py:96 | one school advances the run, or ends it with the pages saved so far |
| SchoolCards.RunSchools | SchoolCardsToPNG.py:96-187 | the loop over the schools as a value; `RunSchoolsOk`, `RunKeepsSaved` and `RunStopsAtFailure` state what it returns and saves |
| SchoolCards.CreatePages | SchoolCardsToPNG.py:66-187 | `create_pages_by_schools` as a value; `CreatePagesOk`, `NoSchoolFolders`, `CreatePagesCards`, `CreatePagesHeaders` and `PagesNumberedInOrder` state its result |
| SchoolCards.CreatePagesBySchools | SchoolCardsToPNG.py:66-187 | `create_pages_by_schools` computes the run: its return value and the pages saved |
| SchoolCards.SchoolRunOk | SchoolCardsToPNG.py:102-168 | a school succeeds iff it has no cards, or neither its grid, nor creating its first page, nor its first resize raises |
| SchoolCards.SchoolRunPage | SchoolCardsToPNG.py:126-176 | every page of a school comes from a valid grid and is the grid's page |
| SchoolCards.RunSchoolsOk | SchoolCardsToPNG.py:185-187 | the run gets to the end iff no school raises |
| SchoolCards.CreatePagesOk | SchoolCardsToPNG.py:87-88 | the run returns True iff a school folder exists and no school raises |
| SchoolCards.SchoolSequenceMembers | SchoolCardsToPNG.py:78-85 | the processing order holds exactly the school folders |
| SchoolCards.SchoolsFail | SchoolCardsToPNG.py:185-187 | no school of the order raises iff no school folder raises |
| SchoolCards.NoFolderNoSchool | SchoolCardsToPNG.py:87 | without sub-folders, no school is found |
| SchoolCards.NoSchoolFolders | SchoolCardsToPNG.py:87-88 | without school folders, the run returns False before saving a page |
| SchoolCards.RunKeepsSaved | SchoolCardsToPNG.py:176 | saved pages are never taken back |
| SchoolCards.RunStopsAtFailure | SchoolCardsToPNG.py:185-187 | at the first school that raises, the run stops. It returns False with exactly the pages of the earlier schools |
| SchoolCards.RunNumbered | SchoolCardsToPNG.py:174-175 | `page_count` goes up by one per saved page across schools |
| SchoolCards.PagesNumberedInOrder | SchoolCardsToPNG.py:174-175 | the `k`-th saved page is number `k`, and no two pages share a file |
| SchoolCards.FileNameNumber | SchoolCardsToPNG.py:175 | the file name is the page number padded to three digits, plus `.png` |
| SchoolCards.FileName | SchoolCardsToPNG.py:175 | a page's file name, its number in the `03d` format then `.png`; `FileNameNumber` and `PagesNumberedInOrder` state it reads back and is unique |
| SchoolCards.SchoolRunHeaders | SchoolCardsToPNG.py:131-150 | all pages of a school name it, and only the first has a header |
| SchoolCards.HeadersAppend | SchoolCardsToPNG.py:131-132 | a new school's pages extend the first-page header rule |
| SchoolCards.RunHeaders | SchoolCardsToPNG.py:131-150 | across a run, a page has a header iff it is the first of its school |
| SchoolCards.CreatePagesHeaders | SchoolCardsToPNG.py:131-150 | the pages of `create_pages_by_schools` carry headers exactly on each school's first page |
| SchoolCards.PageCardsAppend | SchoolCardsToPNG.py:171 | the cards of consecutive page sequences concatenate |
| SchoolCards.PagesBeforeCards | SchoolCardsToPNG.py:153-156 | the first pages show the cards up to the end of the last range, in order |
| SchoolCards.FirstPageCards | SchoolCardsToPNG.py:153-156 | the first page shows the cards of the first range |
| SchoolCards.NextPageCards | SchoolCardsToPNG.py:153-156 | each further page continues where the previous one ended |
| SchoolCards.PrefixExtend | SchoolCardsToPNG.py:153-154 | a range that starts where the shown cards end extends them |
| SchoolCards.LastPageCards | SchoolCardsToPNG.py:153-156 | each page adds the cards of its range |
| SchoolCards.SchoolRunCards | SchoolCardsToPNG.py:153-171 | a school that succeeds pastes each of its cards once, in order, unless its page capacity is negative |
| SchoolCards.LaidOutAll | SchoolCardsToPNG.py:118-122 | with positive row length and row pitch and room for the header, every card of a succeeding school is pasted |
| SchoolCards.RunCards | SchoolCardsToPNG.py:96-171 | a successful run pastes school after school, each school's cards in card order |
| SchoolCards.CreatePagesCards | SchoolCardsToPNG.py:96-178 | the cards on the pages are those of the schools in processing order |
| SchoolCards.SchoolPageLaidOut | SchoolCardsToPNG.py:153-171 | every page has a card. Every card is inside the page, and no two are closer than the gaps |
| SchoolCards.SchoolRunLaidOut | SchoolCardsToPNG.py:126-171 | every page of a school is laid out this way |
| SchoolCards.LaidOutAppend | SchoolCardsToPNG.py:126 | laid-out page sequences concatenate |
| SchoolCards.RunLaidOut | SchoolCardsToPNG.py:96-178 | every page a run saves is laid out this way |
| SchoolCards.ConfiguredPagesLaidOut | SchoolCardsToPNG.py:16-22 | with `cards_per_row` absent (the fallback 4) or positive, every page saved over the configured settings has its cards inside the page and apart |
| SchoolCards.CreatePagesLaidOut | SchoolCardsToPNG.py:96-178 | every page `create_pages_by_schools` saves is laid out this way |
| CardGenerator.SafeFilename | character_card_generator.py:52-56 | the result holds no `\ / * ? : " < > \|` and no whitespace |
| CardGenerator.IsUnsafe | character_card_generator.py:55 | the class `[\\/*?:"<>\|\s]`: the nine punctuation characters and whitespace; `SafeFilename` and `SafeFilenameDeletesOnlyUnsafe` are stated in terms of it |
| CardGenerator.SafeFilenameDeletesOnlyUnsafe | character_card_generator.py:55 | the result is a subsequence of the name and keeps every safe character as often as it occurs |
| CardGenerator.SubsequenceSkip | character_card_generator.py:55 | a deleted leading character may be skipped |
| CardGenerator.SubsequenceDropFirst | character_card_generator.py:55 | a shorter kept text is still a subsequence |
| CardGenerator.SafeFilenameOfSafe | character_card_generator.py:55 | a name without unsafe characters is unchanged |
| CardGenerator.SafeFilenameIdempotent | character_card_generator.py:55 | applying `safe_filename` twice changes nothing more |
| CardGenerator.SafeFilenameConcat | character_card_generator.py:55 | the deletion works character by character |
| CardGenerator.CardFileName | character_card_generator.py:293 | the card's file is the safe name followed by `_card.png`; `SafeFilename` states what the safe name holds |
| CardGenerator.SplitForm | character_card_generator.py:61 | `split('/', 1)` gives a base without `/` and the rest, around one `/` |
| CardGenerator.SplitFormUnique | character_card_generator.py:61 | for `base/form` with no `/` in `base`, the split is `(base, form)` |
| CardGenerator.FormatDisplayName | character_card_generator.py:58-64 | identity without `/`. Otherwise one character longer, ending in `)` |
| CardGenerator.DisplayNameOfForm | character_card_generator.py:60-62 | `base/form` is shown as `base(form)` |
| CardGenerator.DisplayNameExamples | character_card_generator.py:60-64 | `a/b` → `a(b)`, `a/b/c` → `a(b/c)`, `abc` → `abc` |
| CardGenerator.GetSpecialFormUrls | character_card_generator.py:147-161 | the flag is True iff the name contains `/` |
| CardGenerator.SpecialFormUrls | character_card_generator.py:149-156 | for `base/form` both addresses lie under `<quoted base>/<quoted form>/` |
| CardGenerator.NormalFormUrls | character_card_generator.py:157-161 | a normal name gets the first pattern of each list |
| CardGenerator.Format | character_card_generator.py:69 | `pattern.format(arg)` on a pattern with one `{}`: the text before, the argument, the text after (also at line 159); `SpecialFormUrls` and `NormalFormUrls` use it |
| CardGenerator.CardLayout | character_card_generator.py:264-280 | 50 px margins around and between the images. Both bottoms are at `height - 50`, the taller top is at 150 |
| CardGenerator.ImagesInsideBorder | character_card_generator.py:276-284 | both images lie inside the 10 px border, below the divider at y = 120, side by side |
| CardGenerator.CreateCharacterCard | character_card_generator.py:163-311 | no card iff both downloads fail, the configuration has no cards folder, or the folder or the card cannot be written. Otherwise the card is saved in the cards folder with the safe file name and the display name, and is composed by `CardLayout` around the downloaded images, a placeholder standing in for a missing one |
| CardGenerator.PlaceholderSizes | character_card_generator.py:210-266 | a missing SD model image gets room for a 452 × 452 placeholder |
| CardGenerator.CropBox | character_card_generator.py:133-136 | the crop box is exactly the target size |
| CardGenerator.CropBoxCentred | character_card_generator.py:133-138 | an image covering the target is cropped inside itself, centred to within a pixel |
| CardGenerator.CountCreated | character_card_generator.py:343-348 | the count is at most the number of names |
| CardGenerator.BatchCreateCards | character_card_generator.py:339-351 | the loop counts the names that get a card |
| CardGenerator.CountCreatedExtremes | character_card_generator.py:343-351 | the count is the number of names iff every name gets a card (`AllCreated`), and 0 iff none does (`NoneCreated`) |
| CardGenerator.NoCardsFolderNoCards | character_card_generator.py:290-292 | without a cards folder in the configuration the batch creates no card |
| CardGenerator.CreatedSnoc | character_card_generator.py:343-348 | every name gets a card iff every earlier one does and the last one does; likewise for no name |
| AppConfig.LoadConfig | Main.py:94-116 | a missing file gives the defaults: 3 per row, margin 80, 300 dpi, four distinct schools. An unreadable file gives no settings |
| AppConfig.DefaultConfig | Main.py:101-110 | the file written when none exists: 3 cards per row, `character_cards`, `pages`, 300 dpi, margin 80 and the four default schools; `LoadConfig` and `DefaultOrderRoundTrip` state their use |
| AppConfig.CleanPieces | Main.py:126 | each piece gives at most one name, non-empty and without surrounding whitespace |
| AppConfig.CleanPiecesNoComma | Main.py:126 | stripping adds no character, so cleaned pieces have no comma |
| AppConfig.CleanPiecesCons | Main.py:126 | the first piece gives its stripped self, or nothing when blank, before the rest |
| AppConfig.DisplaySchoolOrder | Main.py:190 | the field shows the names joined with `, ` (also at line 235); `DisplayRoundTrip` proves that saving it gives the names back |
| AppConfig.ParseSchoolOrder | Main.py:126 | every parsed entry is non-empty, has no comma, and has no surrounding whitespace |
| AppConfig.CleanPiecesConcat | Main.py:126 | pieces are cleaned independently and in order |
| AppConfig.ParseConcat | Main.py:126 | the parse keeps the left-to-right order of the comma-separated parts |
| AppConfig.ParseOnePiece | Main.py:126 | a part is kept stripped, or dropped when it is blank |
| AppConfig.ParseLeadingSpace | Main.py:126 | leading whitespace is ignored |
| AppConfig.DisplayEmpty | Main.py:235 | an empty order is shown as "" and reads back as empty |
| AppConfig.DisplaySingle | Main.py:235 | one valid name is shown and read back unchanged |
| AppConfig.DisplayCons | Main.py:190 | `", ".join` then parse peels off the first name |
| AppConfig.DisplayRoundTrip | Main.py:126 | for valid names, parsing the `", "`-joined list gives the list back |
| AppConfig.ParseDisplayParse | Main.py:190 | parse, display and parse again equals parse |
| AppConfig.DefaultOrderRoundTrip | Main.py:109 | the default school order survives display and save |

## Left out

- GUI, threads and imports: the tkinter panel, dialogs, log, worker threads and dynamic module loading of `Main.py` are interface plumbing.
- Network and prompts: the downloads with their `input()` fallbacks, and the console `main()` of each file. Their outcome is an input of `CardGenerator.CreateCharacterCard`.
- Imaging library: opening, resizing (apart from its failure for a card side below 1), creating a page (apart from its failure for a negative canvas), pasting, cropping, drawing text and saving. A page is the list of tiles pasted on it. An image that cannot be opened or decoded is not modelled.
- Fonts: the title font is not modelled. The school name on a page is kept as text, with its position. The character's display name on a card is kept as text, without its position.
- Floating point: the A4 pixel size, the card height from the aspect ratio, and `scale_ratio`/`new_width` are floating-point steps. The model takes them as integer inputs. `math.ceil(n / cpp)` is taken as the exact ceiling, without the imprecision of float division for very large counts.
- JSON reading and writing of `config.json`: file I/O. What a read finds is the input of `AppConfig.LoadConfig`. The stored school order is whatever the panel saved.
- `create_pdf_from_images.py`, `mix_pdf.py` and `create_text_image.py` are not part of this model. They are PDF and font I/O with floating-point geometry.
- File systems: paths are POSIX. glob's `*` skips dot-files and matches case-sensitively. Windows drives and case-insensitive matching are not modelled. Names with glob metacharacters are not modelled. A listing's files are plain files, so a directory named `x.png` inside a school folder is not modelled.
- Characters: `str.isdigit` is ASCII digits only. Python also accepts other Unicode digits, some of which `int()` rejects.
- Directory names: `SchoolCards.CreatePagesBySchools` requires the listing's names to be distinct, as a directory guarantees.
- SchoolCards.CreatePagesBySchools: the raises outside the `try` are not modelled, because the model takes the listing as given. `get_school_folders` (called at line 75) raises at line 46 when the cards folder is missing. When `cards_folder` is unset, line 46 lists the working directory, and when that has an entry `os.path.join(None, …)` at line 47 raises for it (an empty working directory gives no school and line 88 returns False). When some school folder exists and `pages_folder` is unset, `os.makedirs(None)` at line 91 raises. In each of these cases `create_pages_by_schools` raises instead of returning False.
- SchoolCards.CreatePagesLaidOut: proved for a positive `cards_per_row` only. With a negative one, Python's `%` puts columns at negative indices. The model computes those positions but states nothing about them.
- CardGenerator.GetSpecialFormUrls: `requests.utils.quote` is a parameter, and nothing is stated about its output.
- CardGenerator.CreateCharacterCard: `os.makedirs("temp_images")` at line 173 runs before the `try` of lines 205-311. Where that folder cannot be created (a plain file of that name, or a working directory that cannot be written), the source raises out of the function. The model returns a result and does not model that raise.
- CardGenerator.BatchCreateCards: `os.makedirs(output_dir)` at line 341 runs before the loop, outside any `try`. Where it cannot be created, the source raises instead of returning a count, and the model does not model that raise. The `output_dir` parameter (line 339) is not modelled: the loop only builds a path from it (line 346) that nothing reads, and each card goes to the configured cards folder.
- CardGenerator.CreateCharacterCard: the normal-name addresses tried by the download formats the unquoted name. The address `get_special_form_urls` builds for a normal name is not used by the download. These download details are not modelled.
