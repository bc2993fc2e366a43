/**
 * The text side of the AniList commands `anime` and `manga`: description clean-up,
 * backslash stripping, fuzzy-date rendering, title, genre and score selection, and
 * the embed built from the first media entry of a search page. The GraphQL request
 * itself is not modelled; its decoded response is a parameter.
 */
module Weeb {
  import opened Wrappers
  import opened Text

  // ---------------------------------------------------------------------------
  // format_desc
  // ---------------------------------------------------------------------------

  /** The replacements of `format_desc`, applied one after the other. */
  const DESC_RULES: seq<(string, string)> := [
    ("<br>", "\n"), ("<br/>", "\n"), ("<br />", "\n"), ("</br>", "\n"), ("</ br>", "\n"),
    ("<i>", "*"), ("</i>", "*"), ("<b>", "**"), ("</b>", "**"),
    ("&rsquo;", "'"), ("&hellip;", "\U{2026}")]

  /** Every pattern and every replacement is non-empty. */
  predicate NonEmptyRules(rules: seq<(string, string)>) {
    forall k :: 0 <= k < |rules| ==> rules[k].0 != [] && rules[k].1 != []
  }

  /** `s.replace(p0, r0).replace(p1, r1)...` */
  function ApplyAll(s: string, rules: seq<(string, string)>): string
    requires NonEmptyRules(rules)
    decreases |rules|
  {
    if |rules| == 0 then s else ApplyAll(Replace(s, rules[0].0, rules[0].1), rules[1..])
  }

  /**
   * `format_desc`: AniList's HTML line breaks, italics, bold and two entities, as
   * Markdown; none of the eleven tokens survives.
   */
  function FormatDesc(desc: string): (r: string)
    ensures forall j :: 0 <= j < |DESC_RULES| ==> !Contains(r, DESC_RULES[j].0)
  {
    DescRulesRemoveAll(desc);
    ApplyAll(desc, DESC_RULES)
  }

  /** The characters the replacements of `format_desc` write. */
  const WRITTEN_CHARS: set<char> := {'\n', '*', '\'', '\U{2026}'}

  /** A text that holds none of the characters the replacements write. */
  predicate FreeOfWritten(t: string) {
    forall i :: 0 <= i < |t| ==> t[i] !in WRITTEN_CHARS
  }

  lemma DescRulesShape()
    ensures NonEmptyRules(DESC_RULES)
    ensures forall k :: 0 <= k < |DESC_RULES| ==> FreeOfWritten(DESC_RULES[k].0)
    ensures forall k :: 0 <= k < |DESC_RULES| ==> forall i :: 0 <= i < |DESC_RULES[k].1| ==> DESC_RULES[k].1[i] in WRITTEN_CHARS
  {
  }

  /** A chain of replacements of absent patterns changes nothing. */
  lemma {:induction false} ApplyAllWithoutMatch(s: string, rules: seq<(string, string)>)
    requires NonEmptyRules(rules)
    requires forall k :: 0 <= k < |rules| ==> !Contains(s, rules[k].0)
    ensures ApplyAll(s, rules) == s
    decreases |rules|
  {
    if |rules| > 0 {
      ReplaceWithoutMatch(s, rules[0].0, rules[0].1);
      ApplyAllWithoutMatch(s, rules[1..]);
    }
  }

  /** An absent `y` stays absent through replacements that share no character with it. */
  lemma {:induction false} ApplyAllKeepsAbsent(s: string, rules: seq<(string, string)>, y: string)
    requires NonEmptyRules(rules) && y != []
    requires forall k :: 0 <= k < |rules| ==> NoShared(rules[k].1, y)
    requires !Contains(s, y)
    ensures !Contains(ApplyAll(s, rules), y)
    decreases |rules|
  {
    if |rules| > 0 {
      ReplaceLeavesNoOccurrence(s, rules[0].0, rules[0].1, y);
      ApplyAllKeepsAbsent(Replace(s, rules[0].0, rules[0].1), rules[1..], y);
    }
  }

  /**
   * The pattern of rule `j` is gone after the chain when neither its own replacement
   * nor any later one shares a character with it.
   */
  lemma {:induction false} ApplyAllRemoves(s: string, rules: seq<(string, string)>, j: nat)
    requires NonEmptyRules(rules) && j < |rules|
    requires forall k :: j <= k < |rules| ==> NoShared(rules[k].1, rules[j].0)
    ensures !Contains(ApplyAll(s, rules), rules[j].0)
    decreases j
  {
    var y := rules[j].0;
    var s' := Replace(s, rules[0].0, rules[0].1);
    if j == 0 {
      ReplaceLeavesNoOccurrence(s, y, rules[0].1, y);
      assert forall k :: 0 <= k < |rules[1..]| ==> NoShared(rules[1..][k].1, y) by {
        forall k | 0 <= k < |rules[1..]| ensures NoShared(rules[1..][k].1, y) {
          assert rules[1..][k] == rules[k + 1];
        }
      }
      ApplyAllKeepsAbsent(s', rules[1..], y);
    } else {
      assert rules[1..][j - 1] == rules[j];
      assert forall k :: j - 1 <= k < |rules[1..]| ==> NoShared(rules[1..][k].1, rules[1..][j - 1].0) by {
        forall k | j - 1 <= k < |rules[1..]| ensures NoShared(rules[1..][k].1, y) {
          assert rules[1..][k] == rules[k + 1];
        }
      }
      ApplyAllRemoves(s', rules[1..], j - 1);
    }
  }

  /** A replacement made of written characters shares none with a pattern free of them. */
  lemma WrittenNotShared(rep: string, pat: string)
    requires forall i :: 0 <= i < |rep| ==> rep[i] in WRITTEN_CHARS
    requires FreeOfWritten(pat)
    ensures NoShared(rep, pat)
  {
    forall i | 0 <= i < |rep| ensures rep[i] !in pat {
      forall m | 0 <= m < |pat| ensures pat[m] != rep[i] {
        assert pat[m] !in WRITTEN_CHARS;
      }
    }
  }

  /** A description holding none of the eleven tokens comes back unchanged. */
  lemma FormatDescWithoutTokens(desc: string)
    requires forall k :: 0 <= k < |DESC_RULES| ==> !Contains(desc, DESC_RULES[k].0)
    ensures FormatDesc(desc) == desc
  {
    DescRulesShape();
    ApplyAllWithoutMatch(desc, DESC_RULES);
  }

  /** After the eleven replacements none of their tokens is left. */
  lemma DescRulesRemoveAll(desc: string)
    ensures NonEmptyRules(DESC_RULES)
    ensures forall j :: 0 <= j < |DESC_RULES| ==> !Contains(ApplyAll(desc, DESC_RULES), DESC_RULES[j].0)
  {
    DescRulesShape();
    forall j | 0 <= j < |DESC_RULES| ensures !Contains(ApplyAll(desc, DESC_RULES), DESC_RULES[j].0) {
      forall k | j <= k < |DESC_RULES| ensures NoShared(DESC_RULES[k].1, DESC_RULES[j].0) {
        WrittenNotShared(DESC_RULES[k].1, DESC_RULES[j].0);
      }
      ApplyAllRemoves(desc, DESC_RULES, j);
    }
  }

  // ---------------------------------------------------------------------------
  // strip_stupid_backslashes
  // ---------------------------------------------------------------------------

  /**
   * `strip_stupid_backslashes`: `url.replace("\\", "")`; no backslash is left, and
   * every other character keeps its count.
   */
  function StripBackslashes(url: string): (r: string)
    ensures '\\' !in r
    ensures forall d :: d != '\\' ==> multiset(r)[d] == multiset(url)[d]
  {
    ReplaceCharIsWithout(url, '\\');
    WithoutCounts(url, '\\');
    assert '\\' !in multiset(Without(url, '\\'));
    Replace(url, "\\", "")
  }

  /** `s` with every `c` dropped and the other characters kept in order. */
  function Without(s: string, c: char): string
    decreases |s|
  {
    if s == [] then [] else (if s[0] == c then [] else [s[0]]) + Without(s[1..], c)
  }

  lemma {:induction false} ReplaceCharIsWithout(s: string, c: char)
    ensures Replace(s, [c], "") == Without(s, c)
    decreases |s|
  {
    if s != [] {
      ReplaceCharIsWithout(s[1..], c);
    }
  }

  /** `Without` drops exactly the `c`s: every other character keeps its count. */
  lemma {:induction false} WithoutCounts(s: string, c: char)
    ensures multiset(Without(s, c))[c] == 0
    ensures forall d :: d != c ==> multiset(Without(s, c))[d] == multiset(s)[d]
    decreases |s|
  {
    if s != [] {
      WithoutCounts(s[1..], c);
      assert s == [s[0]] + s[1..];
    }
  }

  /** A text without `c` is its own filtering. */
  lemma {:induction false} WithoutAbsent(s: string, c: char)
    requires c !in s
    ensures Without(s, c) == s
    decreases |s|
  {
    if s != [] {
      WithoutAbsent(s[1..], c);
    }
  }

  /**
   * `strip_stupid_backslashes` keeps the other characters in order, as `Without`
   * says, and stripping twice is stripping once.
   */
  lemma StripBackslashesFacts(url: string)
    ensures StripBackslashes(url) == Without(url, '\\')
    ensures StripBackslashes(StripBackslashes(url)) == StripBackslashes(url)
  {
    ReplaceCharIsWithout(url, '\\');
    var r := Without(url, '\\');
    ReplaceCharIsWithout(r, '\\');
    WithoutAbsent(r, '\\');
  }

  // ---------------------------------------------------------------------------
  // Dates
  // ---------------------------------------------------------------------------

  /** AniList's `FuzzyDate`: any component may be missing. */
  datatype FuzzyDate = FuzzyDate(year: Option<int>, month: Option<int>, day: Option<int>)

  /** The rendering of a missing date, and the value that hides the date field. */
  const NO_DATE: string := "0000/00/00"

  /** A date is worth showing when it is present and some component is non-zero. */
  predicate DateKnown(date: Option<FuzzyDate>) {
    date.Some? && (date.value.year.GetOr(0) != 0 || date.value.month.GetOr(0) != 0 || date.value.day.GetOr(0) != 0)
  }

  /** Three slashed parts at least as long as three others are equal to them when the whole texts are. */
  lemma SplitSlashed(a: string, b: string, c: string, x: string, y: string, z: string)
    requires |a| >= |x| && |b| >= |y| && |c| >= |z|
    requires a + "/" + b + "/" + c == x + "/" + y + "/" + z
    ensures a == x && b == y && c == z
  {
    var t := a + "/" + b + "/" + c;
    assert |a| == |x| && |b| == |y| && |c| == |z|;
    assert a == t[..|a|];
    assert x == t[..|a|];
    assert b == t[|a| + 1..|a| + 1 + |b|];
    assert y == (x + "/" + y + "/" + z)[|a| + 1..|a| + 1 + |b|];
    assert c == t[|a| + |b| + 2..];
    assert z == (x + "/" + y + "/" + z)[|a| + |b| + 2..];
  }

  /** The padded components read "0000/00/00" exactly when all three are 0. */
  lemma PaddedDateIsZero(year: int, month: int, day: int)
    ensures PadInt(year, 4) + "/" + PadInt(month, 2) + "/" + PadInt(day, 2) == NO_DATE
            <==> year == 0 && month == 0 && day == 0
  {
    PadIntAllZeros(year, 4);
    PadIntAllZeros(month, 2);
    PadIntAllZeros(day, 2);
    assert NO_DATE == Zeros(4) + "/" + Zeros(2) + "/" + Zeros(2);
    if PadInt(year, 4) + "/" + PadInt(month, 2) + "/" + PadInt(day, 2) == NO_DATE {
      SplitSlashed(PadInt(year, 4), PadInt(month, 2), PadInt(day, 2), Zeros(4), Zeros(2), Zeros(2));
    }
  }

  /**
   * `map_or_else` over the date: `"{:04}/{:02}/{:02}"` with missing components as 0.
   * The text differs from "0000/00/00" exactly when the date is known.
   */
  function FormatDate(date: Option<FuzzyDate>): (s: string)
    ensures s != NO_DATE <==> DateKnown(date)
  {
    match date
    case None => NO_DATE
    case Some(d) =>
      PaddedDateIsZero(d.year.GetOr(0), d.month.GetOr(0), d.day.GetOr(0));
      PadInt(d.year.GetOr(0), 4) + "/" + PadInt(d.month.GetOr(0), 2) + "/" + PadInt(d.day.GetOr(0), 2)
  }

  // ---------------------------------------------------------------------------
  // Title, genres, score
  // ---------------------------------------------------------------------------

  /**
   * The embed title: both names, the one present, or a placeholder. The romaji name,
   * when present, opens it, and the native name, when present, closes it.
   */
  function Title(romaji: Option<string>, native: Option<string>): (t: string)
    ensures romaji.Some? ==> romaji.value <= t
    ensures native.Some? ==> |native.value| <= |t| && t[|t| - |native.value|..] == native.value
    ensures romaji.None? && native.None? ==> t == "Title unavailable."
  {
    match (romaji, native)
    case (Some(r), Some(n)) => r + " | " + n
    case (Some(t), None) => t
    case (None, Some(t)) => t
    case (None, None) => "Title unavailable."
  }

  /** Both names are shown around " | "; a single name is the whole title. */
  lemma TitleShowsNames(romaji: Option<string>, native: Option<string>)
    ensures romaji.Some? && native.Some? ==> Title(romaji, native) == romaji.value + " | " + native.value
    ensures romaji.Some? && native.None? ==> Title(romaji, native) == romaji.value
    ensures romaji.None? && native.Some? ==> Title(romaji, native) == native.value
  {
  }

  /** `filter_map(|g| g)`: the present entries, in order. */
  function FilterSome(xs: seq<Option<string>>): seq<string>
    decreases |xs|
  {
    if xs == [] then [] else (if xs[0].Some? then [xs[0].value] else []) + FilterSome(xs[1..])
  }

  lemma {:induction false} FilterSomeAppend(xs: seq<Option<string>>, ys: seq<Option<string>>)
    ensures FilterSome(xs + ys) == FilterSome(xs) + FilterSome(ys)
    decreases |xs|
  {
    if xs != [] {
      assert (xs + ys)[0] == xs[0];
      assert (xs + ys)[1..] == xs[1..] + ys;
      FilterSomeAppend(xs[1..], ys);
    } else {
      assert xs + ys == ys;
    }
  }

  /** A name is kept exactly when it is present, and the kept list is never longer. */
  lemma {:induction false} FilterSomeMembers(xs: seq<Option<string>>, g: string)
    ensures g in FilterSome(xs) <==> Some(g) in xs
    ensures |FilterSome(xs)| <= |xs|
    ensures (forall i :: 0 <= i < |xs| ==> xs[i].Some?) ==> |FilterSome(xs)| == |xs|
    decreases |xs|
  {
    if xs != [] {
      FilterSomeMembers(xs[1..], g);
      assert xs == [xs[0]] + xs[1..];
      assert forall i :: 1 <= i < |xs| ==> xs[1..][i - 1] == xs[i];
    }
  }

  /** Every present genre appears in the joined text. */
  lemma GenresShown(genres: seq<Option<string>>)
    ensures forall g :: Some(g) in genres ==> Contains(Join(FilterSome(genres), ", "), g)
  {
    forall g | Some(g) in genres ensures Contains(Join(FilterSome(genres), ", "), g) {
      FilterSomeMembers(genres, g);
      var i :| 0 <= i < |FilterSome(genres)| && FilterSome(genres)[i] == g;
      JoinContains(FilterSome(genres), ", ", i);
    }
  }

  /** The "Genres" field: the present genres joined with ", "; every present genre is shown. */
  function GenresText(genres: seq<Option<string>>): (t: string)
    ensures forall g :: Some(g) in genres ==> Contains(t, g)
  {
    GenresShown(genres);
    Join(FilterSome(genres), ", ")
  }

  /** The "Average Score" field: `format!("{}%", score)`. */
  function ScoreText(score: int): (t: string)
    ensures |t| >= 2 && t[|t| - 1] == '%'
  {
    IntToString(score) + "%"
  }

  /** The number in front of the '%' reads back as the score. */
  lemma ScoreReadsBack(score: u64)
    ensures ParseU64(ScoreText(score)[..|ScoreText(score)| - 1]) == Ok(score)
  {
    assert ScoreText(score)[..|ScoreText(score)| - 1] == ToDecimal(score);
    ParseToDecimal(score);
  }

  // ---------------------------------------------------------------------------
  // The first media entry and the embed
  // ---------------------------------------------------------------------------

  datatype MediaKind = Anime | Manga

  function KindName(kind: MediaKind): string {
    match kind
    case Anime => "anime"
    case Manga => "manga"
  }

  datatype MediaTitle = MediaTitle(romaji: Option<string>, native: Option<string>)

  /**
   * One AniList media entry; enum-valued fields hold their debug rendering, and
   * `count` is the episode count of an anime or the chapter count of a manga.
   */
  datatype Media = Media(
    id: int, title: Option<MediaTitle>, coverImage: Option<string>, description: Option<string>,
    status: Option<string>, count: Option<int>, genres: Option<seq<Option<string>>>,
    averageScore: Option<int>, season: Option<string>,
    startDate: Option<FuzzyDate>, endDate: Option<FuzzyDate>)

  /**
   * `page.media.and_then(|mut media| media.remove(0))` as written: panics on an empty
   * list, so it is defined only for a missing list or a non-empty one; an entry it
   * gives is the list's first.
   */
  function FirstMediaAsWritten(media: Option<seq<Option<Media>>>): (r: Option<Media>)
    requires media.Some? ==> |media.value| > 0
    ensures r.Some? ==> media.Some? && media.value[0] == r
  {
    if media.Some? then media.value[0] else None
  }

  /** A search with no match gives an empty page, and the first entry of it cannot be taken. */
  lemma EmptyPageRejected()
    ensures !FirstMediaAsWritten.requires(Some([]))
  {
  }

  /** The first entry of the page, with an empty page treated like a missing one. */
  function FirstMedia(media: Option<seq<Option<Media>>>): (r: Option<Media>)
    ensures r.Some? <==> media.Some? && |media.value| > 0 && media.value[0].Some?
    ensures media.Some? && |media.value| > 0 ==> r == FirstMediaAsWritten(media)
  {
    if media.Some? && |media.value| > 0 then media.value[0] else None
  }

  datatype Field = Field(name: string, value: string)

  datatype Embed = Embed(url: string, title: string, description: string, thumbnail: Option<string>, fields: seq<Field>)

  function OptionalField(name: string, value: Option<string>): seq<Field> {
    if value.Some? then [Field(name, value.value)] else []
  }

  function DateField(name: string, date: Option<FuzzyDate>): seq<Field> {
    if FormatDate(date) != NO_DATE then [Field(name, FormatDate(date))] else []
  }

  /** The fields before the dates: status, episode or chapter count, genres, score, season. */
  function LeadingFields(kind: MediaKind, m: Media): seq<Field> {
    OptionalField("Status", m.status)
    + OptionalField(if kind == Anime then "Episodes" else "Chapters",
                    if m.count.Some? then Some(IntToString(m.count.value)) else None)
    + OptionalField("Genres", if m.genres.Some? then Some(GenresText(m.genres.value)) else None)
    + OptionalField("Average Score", if m.averageScore.Some? then Some(ScoreText(m.averageScore.value)) else None)
    + (if kind == Anime then OptionalField("Season", m.season) else [])
  }

  /** The inline fields of the embed, in the order the command adds them. */
  function MediaFields(kind: MediaKind, m: Media): seq<Field> {
    LeadingFields(kind, m) + DateField("Start Date", m.startDate) + DateField("End Date", m.endDate)
  }

  function MediaPath(kind: MediaKind): string {
    match kind
    case Anime => "https://anilist.co/anime/"
    case Manga => "https://anilist.co/manga/"
  }

  /**
   * The embed `anime` and `manga` send for the page of search results. It takes the
   * first entry through the corrected `FirstMedia`, so an empty page is the "Unable
   * to get" error where the command as written panics.
   */
  function MediaEmbed(kind: MediaKind, page: Option<seq<Option<Media>>>): (r: Result<Embed, string>)
    ensures FirstMedia(page).None? ==> r == Err("Unable to get " + KindName(kind) + " from response.")
    ensures FirstMedia(page).Some? && FirstMedia(page).value.title.None? ==>
      r == Err("Unable to get title field from " + KindName(kind) + ".")
    ensures r.Ok? ==> FirstMedia(page).Some? && FirstMedia(page).value.title.Some?
    ensures r.Ok? ==>
      && r.value.title == Title(FirstMedia(page).value.title.value.romaji, FirstMedia(page).value.title.value.native)
      && r.value.fields == MediaFields(kind, FirstMedia(page).value)
  {
    match FirstMedia(page)
    case None => Err("Unable to get " + KindName(kind) + " from response.")
    case Some(m) =>
      match m.title
      case None => Err("Unable to get title field from " + KindName(kind) + ".")
      case Some(t) =>
        Ok(Embed(MediaPath(kind) + IntToString(m.id),
                 Title(t.romaji, t.native),
                 if m.description.Some? then FormatDesc(m.description.value) else "No description available.",
                 m.coverImage,
                 MediaFields(kind, m)))
  }

  predicate HasField(fields: seq<Field>, name: string) {
    exists i :: 0 <= i < |fields| && fields[i].name == name
  }

  lemma HasFieldAppend(a: seq<Field>, b: seq<Field>, name: string)
    ensures HasField(a + b, name) <==> HasField(a, name) || HasField(b, name)
  {
    if HasField(a + b, name) {
      var i :| 0 <= i < |a + b| && (a + b)[i].name == name;
      if i >= |a| {
        assert b[i - |a|].name == name;
      }
    }
    if HasField(a, name) {
      var i :| 0 <= i < |a| && a[i].name == name;
      assert (a + b)[i].name == name;
    }
    if HasField(b, name) {
      var i :| 0 <= i < |b| && b[i].name == name;
      assert (a + b)[i + |a|].name == name;
    }
  }

  const LEADING_NAMES: set<string> := {"Status", "Episodes", "Chapters", "Genres", "Average Score", "Season"}

  lemma LeadingFieldNames(kind: MediaKind, m: Media)
    ensures forall i :: 0 <= i < |LeadingFields(kind, m)| ==> LeadingFields(kind, m)[i].name in LEADING_NAMES
    ensures kind == Manga ==> forall i :: 0 <= i < |LeadingFields(kind, m)| ==> LeadingFields(kind, m)[i].name != "Season"
  {
  }

  /**
   * The "Start Date" and "End Date" fields appear exactly when those dates are known,
   * and only an anime carries a "Season" field.
   */
  lemma MediaFieldsShape(kind: MediaKind, m: Media)
    ensures HasField(MediaFields(kind, m), "Start Date") <==> DateKnown(m.startDate)
    ensures HasField(MediaFields(kind, m), "End Date") <==> DateKnown(m.endDate)
    ensures kind == Manga ==> !HasField(MediaFields(kind, m), "Season")
  {
    LeadingFieldNames(kind, m);
    var lead := LeadingFields(kind, m);
    var s := DateField("Start Date", m.startDate);
    var t := DateField("End Date", m.endDate);
    assert "Start Date" !in LEADING_NAMES && "End Date" !in LEADING_NAMES;
    assert !HasField(lead, "Start Date") && !HasField(lead, "End Date");
    assert kind == Manga ==> !HasField(lead, "Season");
    assert HasField(s, "Start Date") <==> DateKnown(m.startDate) by {
      if DateKnown(m.startDate) {
        assert s[0].name == "Start Date";
      }
    }
    assert HasField(t, "End Date") <==> DateKnown(m.endDate) by {
      if DateKnown(m.endDate) {
        assert t[0].name == "End Date";
      }
    }
    assert !HasField(s, "End Date") && !HasField(s, "Season");
    assert !HasField(t, "Start Date") && !HasField(t, "Season");
    HasFieldAppend(lead, s, "Start Date");
    HasFieldAppend(lead + s, t, "Start Date");
    HasFieldAppend(lead, s, "End Date");
    HasFieldAppend(lead + s, t, "End Date");
    HasFieldAppend(lead, s, "Season");
    HasFieldAppend(lead + s, t, "Season");
  }

  /** A page without entries, or without any page, gives the "Unable to get" error rather than a panic. */
  lemma EmptyPageIsAnError(kind: MediaKind)
    ensures MediaEmbed(kind, Some([])) == Err("Unable to get " + KindName(kind) + " from response.")
    ensures MediaEmbed(kind, None) == Err("Unable to get " + KindName(kind) + " from response.")
  {
  }
}
