/** The string normalisers of the catalog import script: the brand parsed
    from a release title, optional text cleaned to None, the year found in a
    file path, and the five-part canonical key the import de-duplicates on.
    Regular-expression classes are read over ASCII: \s is Python's ASCII
    whitespace, \d the ASCII digits, and case-insensitive matching folds
    ASCII letters only. */
module CatalogNorm {
  import opened Common
  import opened CardsRouter

  // ---------------------------------------------------------- parse_brand

  /** re.sub(r"^\s*\d{4}(?:-\d{2})?\s+", "", s): a leading "1981 " or
      "1990-91 " and the whitespace after it. */
  function DropYearPrefix(s: string): string {
    var t := TrimLeft(s);
    if |t| >= 5 && AllDecimal(t[..4]) && IsSpace(t[4]) then TrimLeft(t[4..])
    else if |t| >= 8 && AllDecimal(t[..4]) && t[4] == '-' && AllDecimal(t[5..7]) && IsSpace(t[7]) then TrimLeft(t[7..])
    else s
  }

  const SportWords: seq<string> := ["baseball", "basketball", "football", "hockey"]

  /** Whether t ends in whitespace followed by the word w, in any letter case. */
  predicate EndsWithWord(t: string, w: string) {
    |w| < |t| && Lower(t[|t| - |w|..]) == w && IsSpace(t[|t| - |w| - 1])
  }

  /** The length of the sport word that ends t after whitespace, or 0. */
  function SportSuffixLen(t: string, words: seq<string>): (n: nat)
    ensures n < |t| || n == 0
  {
    if words == [] then 0
    else if words[0] != [] && EndsWithWord(t, words[0]) then |words[0]|
    else SportSuffixLen(t, words[1..])
  }

  /** re.sub(r"\s+(Baseball|Basketball|Football|Hockey)\s*$", "", s, flags=re.I):
      the final sport word, the whitespace before it and any after it. */
  function DropSportSuffix(s: string): string {
    CutSuffix(s, SportSuffixLen(TrimRight(s), SportWords))
  }

  /** Removes trailing whitespace, the last n characters and the whitespace
      before them; n == 0 means no match and leaves s unchanged. */
  function CutSuffix(s: string, n: nat): string {
    var t := TrimRight(s);
    if 0 < n <= |t| then TrimRight(t[..|t| - n]) else s
  }

  /** re.sub(r"\s+", " ", s): every whitespace run becomes one space. */
  function Collapse(s: string): string {
    if s == [] then []
    else if IsSpace(s[0]) && |s| > 1 && IsSpace(s[1]) then Collapse(s[1..])
    else [if IsSpace(s[0]) then ' ' else s[0]] + Collapse(s[1..])
  }

  /** parse_brand: the release title without its year and sport, or the whole
      stripped title when nothing else is left. */
  function ParseBrand(releaseName: Option<string>): string {
    var raw := Strip(releaseName.GetOr(""));
    var s := Strip(Collapse(DropSportSuffix(DropYearPrefix(raw))));
    if s != [] then s else raw
  }

  lemma EmptyStaysEmpty()
    ensures DropYearPrefix("") == "" && DropSportSuffix("") == "" && Collapse("") == "" && Strip("") == ""
  {
  }

  /** The brand is stripped, and empty exactly when the title is missing or blank. */
  lemma ParseBrandSpec(releaseName: Option<string>)
    ensures IsStripped(ParseBrand(releaseName))
    ensures ParseBrand(releaseName) == "" <==> !Truthy(Some(Strip(releaseName.GetOr(""))))
  {
    var raw := Strip(releaseName.GetOr(""));
    StripSpec(releaseName.GetOr(""));
    StripSpec(Collapse(DropSportSuffix(DropYearPrefix(raw))));
    if raw == "" {
      EmptyStaysEmpty();
    }
  }

  /** A string whose only whitespace is single spaces is left as it is by Collapse. */
  lemma {:induction false} CollapseNoop(s: string)
    requires forall i :: 0 <= i < |s| && IsSpace(s[i]) ==> s[i] == ' ' && (i + 1 < |s| ==> !IsSpace(s[i + 1]))
    ensures Collapse(s) == s
  {
    if s != [] {
      assert forall i :: 0 <= i < |s[1..]| ==> s[1..][i] == s[i + 1];
      CollapseNoop(s[1..]);
      assert [s[0]] + s[1..] == s;
    }
  }

  lemma DropYearPrefixShort(y: string, r: string)
    requires |y| == 4 && AllDecimal(y)
    requires r != [] && !IsSpace(r[0])
    ensures DropYearPrefix(y + " " + r) == r
  {
    var t := y + " " + r;
    TrimLeftNoop(t);
    assert t[..4] == y && t[4] == ' ';
    assert t[4..] == [' '] + r;
    TrimLeftNoop(r);
    assert TrimLeft(t[4..]) == TrimLeft(r);
  }

  lemma DropYearPrefixSeason(y: string, yy: string, r: string)
    requires |y| == 4 && AllDecimal(y) && |yy| == 2 && AllDecimal(yy)
    requires r != [] && !IsSpace(r[0])
    ensures DropYearPrefix(y + "-" + yy + " " + r) == r
  {
    var t := y + "-" + yy + " " + r;
    TrimLeftNoop(t);
    assert t[..4] == y && t[4] == '-' && t[5..7] == yy && t[7] == ' ';
    assert !IsSpace(t[4]);
    assert t[7..] == [' '] + r;
    TrimLeftNoop(r);
    assert TrimLeft(t[7..]) == TrimLeft(r);
  }

  lemma CutSuffixWord(b: string, w: string)
    requires b != [] && !IsSpace(b[|b| - 1])
    requires w != [] && !IsSpace(w[|w| - 1])
    ensures CutSuffix(b + " " + w, |w|) == b
  {
    var t := b + " " + w;
    TrimRightNoop(t);
    assert t[..|t| - |w|] == b + " ";
    assert (b + " ")[..|b|] == b;
    TrimRightNoop(b);
  }

  lemma DropSportSuffixWord(b: string, w: string)
    requires b != [] && !IsSpace(b[|b| - 1])
    requires w != [] && !IsSpace(w[|w| - 1])
    requires SportSuffixLen(b + " " + w, SportWords) == |w|
    ensures DropSportSuffix(b + " " + w) == b
  {
    TrimRightNoop(b + " " + w);
    CutSuffixWord(b, w);
  }

  /** The brand left by the last two steps when the title's middle part is
      already single-spaced. */
  lemma SpacedBrand(b: string)
    requires b != [] && !IsSpace(b[0]) && !IsSpace(b[|b| - 1])
    requires forall i :: 0 <= i < |b| && IsSpace(b[i]) ==> b[i] == ' ' && (i + 1 < |b| ==> !IsSpace(b[i + 1]))
    ensures Strip(Collapse(b)) == b
  {
    CollapseNoop(b);
    StrippedIsFixpoint(b);
  }

  lemma BrandFromParts(raw: string, rest: string, b: string)
    requires IsStripped(raw) && raw != []
    requires DropYearPrefix(raw) == rest && DropSportSuffix(rest) == b
    requires b != [] && !IsSpace(b[0]) && !IsSpace(b[|b| - 1])
    requires forall i :: 0 <= i < |b| && IsSpace(b[i]) ==> b[i] == ' ' && (i + 1 < |b| ==> !IsSpace(b[i + 1]))
    ensures ParseBrand(Some(raw)) == b
  {
    StrippedIsFixpoint(raw);
    SpacedBrand(b);
  }

  lemma DonrussSuffix()
    ensures SportSuffixLen("Donruss Baseball", SportWords) == 8
  {
    var t := "Donruss Baseball";
    assert Lower(t[8..]) == "baseball";
    assert EndsWithWord(t, SportWords[0]);
  }

  lemma SuffixSkip(t: string, words: seq<string>)
    requires words != [] && !EndsWithWord(t, words[0])
    ensures SportSuffixLen(t, words) == SportSuffixLen(t, words[1..])
  {
  }

  lemma UpperDeckSuffix()
    ensures SportSuffixLen("Upper Deck Hockey", SportWords) == 6
  {
    var t := "Upper Deck Hockey";
    assert LowerChar(t[9]) != 'b' && LowerChar(t[7]) != 'b' && LowerChar(t[9]) != 'f';
    assert Lower(t[9..])[0] != SportWords[0][0];
    SuffixSkip(t, SportWords);
    assert Lower(t[7..])[0] != SportWords[1][0];
    SuffixSkip(t, SportWords[1..]);
    assert Lower(t[9..])[0] != SportWords[2][0];
    SuffixSkip(t, SportWords[1..][1..]);
    assert SportWords[1..][1..][1..] == ["hockey"];
    assert Lower(t[11..]) == "hockey";
    assert EndsWithWord(t, "hockey");
  }

  lemma ChromeSuffix()
    ensures SportSuffixLen("Topps Chrome Baseball", SportWords) == 8
  {
    var t := "Topps Chrome Baseball";
    assert Lower(t[13..]) == "baseball";
    assert EndsWithWord(t, SportWords[0]);
  }

  lemma DonrussSpelled()
    ensures "1981" + " " + "Donruss Baseball" == "1981 Donruss Baseball"
    ensures "Donruss" + " " + "Baseball" == "Donruss Baseball"
    ensures IsStripped("1981 Donruss Baseball") && AllDecimal("1981")
    ensures forall i :: 0 <= i < |"Donruss"| ==> !IsSpace("Donruss"[i])
  {
  }

  lemma UpperDeckSpelled()
    ensures "1990" + "-" + "91" + " " + "Upper Deck Hockey" == "1990-91 Upper Deck Hockey"
    ensures "Upper Deck" + " " + "Hockey" == "Upper Deck Hockey"
    ensures IsStripped("1990-91 Upper Deck Hockey") && AllDecimal("1990") && AllDecimal("91")
    ensures forall i :: 0 <= i < |"Upper Deck"| && i != 5 ==> !IsSpace("Upper Deck"[i])
  {
  }

  lemma ChromeSpelled()
    ensures "Topps Chrome" + " " + "Baseball" == "Topps Chrome Baseball"
    ensures IsStripped("Topps Chrome Baseball")
    ensures forall i :: 0 <= i < |"Topps Chrome"| && i != 5 ==> !IsSpace("Topps Chrome"[i])
  {
  }

  lemma ChromeNoYear()
    ensures DropYearPrefix("Topps Chrome Baseball") == "Topps Chrome Baseball"
  {
    var t := "Topps Chrome Baseball";
    TrimLeftNoop(t);
    assert !IsDecimal(t[0]);
    assert !AllDecimal(t[..4]);
  }

  /** The three titles documented in the script. */
  lemma ParseBrandDonruss()
    ensures ParseBrand(Some("1981 Donruss Baseball")) == "Donruss"
  {
    DonrussSuffix();
    DonrussSpelled();
    DropYearPrefixShort("1981", "Donruss Baseball");
    DropSportSuffixWord("Donruss", "Baseball");
    BrandFromParts("1981 Donruss Baseball", "Donruss Baseball", "Donruss");
  }

  lemma ParseBrandUpperDeck()
    ensures ParseBrand(Some("1990-91 Upper Deck Hockey")) == "Upper Deck"
  {
    UpperDeckSuffix();
    UpperDeckSpelled();
    DropYearPrefixSeason("1990", "91", "Upper Deck Hockey");
    DropSportSuffixWord("Upper Deck", "Hockey");
    BrandFromParts("1990-91 Upper Deck Hockey", "Upper Deck Hockey", "Upper Deck");
  }

  lemma ParseBrandChrome()
    ensures ParseBrand(Some("Topps Chrome Baseball")) == "Topps Chrome"
  {
    ChromeSuffix();
    ChromeSpelled();
    ChromeNoYear();
    DropSportSuffixWord("Topps Chrome", "Baseball");
    BrandFromParts("Topps Chrome Baseball", "Topps Chrome Baseball", "Topps Chrome");
  }

  // ----------------------------------------------------------- ensure_str

  /** ensure_str: the stripped text, or None when nothing is left. */
  function EnsureStr(x: Option<string>): (r: Option<string>)
    ensures r.Some? ==> r.value != ""
  {
    if x.None? then None
    else
      var s := Strip(x.value);
      if s != "" then Some(s) else None
  }

  /** ensure_str never yields "", yields a stripped value exactly for
      non-blank input, and a second application changes nothing. */
  lemma EnsureStrSpec(x: Option<string>)
    ensures EnsureStr(x).None? <==> x.None? || forall i :: 0 <= i < |x.value| ==> IsSpace(x.value[i])
    ensures EnsureStr(x).Some? ==> IsStripped(EnsureStr(x).value) && EnsureStr(x).value == Strip(x.value)
    ensures EnsureStr(EnsureStr(x)) == EnsureStr(x)
  {
    if x.Some? {
      StripSpec(x.value);
      StripIdempotent(x.value);
    }
  }

  // ------------------------------------------------- find_year_from_path

  /** A match of (19|20)\d{2} starting at position i. */
  predicate YearAt(s: string, i: int) {
    0 <= i && i + 4 <= |s|
    && ((s[i] == '1' && s[i + 1] == '9') || (s[i] == '2' && s[i + 1] == '0'))
    && IsDecimal(s[i + 2]) && IsDecimal(s[i + 3])
  }

  /** The leftmost match at or after position i. */
  function FirstYearFrom(s: string, i: nat): (r: Option<nat>)
    ensures r.Some? ==> i <= r.value && YearAt(s, r.value) && forall j :: i <= j < r.value ==> !YearAt(s, j)
    ensures r.None? ==> forall j :: i <= j ==> !YearAt(s, j)
    decreases |s| - i
  {
    if i + 4 > |s| then None
    else if YearAt(s, i) then Some(i)
    else FirstYearFrom(s, i + 1)
  }

  /** The value of four ASCII digits. */
  lemma DigitsValue4(d: string)
    requires |d| == 4 && AllDecimal(d)
    ensures DigitsValue(d) == 1000 * (d[0] as int - '0' as int) + 100 * (d[1] as int - '0' as int)
      + 10 * (d[2] as int - '0' as int) + (d[3] as int - '0' as int)
  {
    var d3, d2, d1 := d[..3], d[..2], d[..1];
    assert d3[..2] == d2 && d2[..1] == d1 && d1[..0] == [];
    assert DigitsValue(d1) == d[0] as int - '0' as int;
    assert DigitsValue(d2) == DigitsValue(d1) * 10 + (d[1] as int - '0' as int);
    assert DigitsValue(d3) == DigitsValue(d2) * 10 + (d[2] as int - '0' as int);
    assert DigitsValue(d) == DigitsValue(d3) * 10 + (d[3] as int - '0' as int);
  }

  /** find_year_from_path. */
  function FindYearFromPath(path: string): (r: Option<int>)
    ensures r.Some? ==> 1900 <= r.value <= 2099
  {
    var s := ReplaceChar(path, '\\', '/');
    var m := FirstYearFrom(s, 0);
    if m.None? then None
    else
      var d := s[m.value..m.value + 4];
      assert d[0] == s[m.value] && d[1] == s[m.value + 1] && d[2] == s[m.value + 2] && d[3] == s[m.value + 3];
      DigitsValue4(d);
      Some(DigitsValue(d))
  }

  /** The year is present exactly when the path holds a 19xx or 20xx run of
      digits; it is the leftmost such run, read as a number. Turning
      backslashes into slashes moves no digit. */
  lemma FindYearSpec(path: string)
    ensures FindYearFromPath(path).None? <==> forall i :: !YearAt(path, i)
    ensures FindYearFromPath(path).Some? ==> exists i ::
      && YearAt(path, i) && (forall j :: 0 <= j < i ==> !YearAt(path, j))
      && FindYearFromPath(path).value == DigitsValue(path[i..i + 4])
  {
    var s := ReplaceChar(path, '\\', '/');
    assert forall i :: YearAt(s, i) <==> YearAt(path, i);
    var m := FirstYearFrom(s, 0);
    if m.Some? {
      assert s[m.value..m.value + 4] == path[m.value..m.value + 4];
    }
  }

  // ------------------------------------------------------ build_canonical

  /** str(d.get("year") or "").strip().lower(): a year of 0 counts as missing. */
  function YearPart(year: Option<int>): string {
    if year.None? || year.value == 0 then "" else Lower(Strip(IntToString(year.value)))
  }

  function CanonicalParts(year: Option<int>, brand: Option<string>, setName: Option<string>,
                          cardNo: Option<string>, player: Option<string>): seq<string>
  {
    [YearPart(year), NormText(brand), NormText(setName), NormText(cardNo), NormText(player)]
  }

  /** build_canonical: five normalised parts joined with "|". */
  function BuildCanonical(year: Option<int>, brand: Option<string>, setName: Option<string>,
                          cardNo: Option<string>, player: Option<string>): string
  {
    Join(CanonicalParts(year, brand, setName, cardNo, player), '|')
  }

  /** Two records get the same key exactly when their five normalised parts
      agree (parts holding "|" aside). */
  lemma BuildCanonicalInjective(
    y1: Option<int>, b1: Option<string>, s1: Option<string>, n1: Option<string>, p1: Option<string>,
    y2: Option<int>, b2: Option<string>, s2: Option<string>, n2: Option<string>, p2: Option<string>)
    requires forall i :: 0 <= i < 5 ==> '|' !in CanonicalParts(y1, b1, s1, n1, p1)[i]
    requires forall i :: 0 <= i < 5 ==> '|' !in CanonicalParts(y2, b2, s2, n2, p2)[i]
    ensures BuildCanonical(y1, b1, s1, n1, p1) == BuildCanonical(y2, b2, s2, n2, p2) <==>
      CanonicalParts(y1, b1, s1, n1, p1) == CanonicalParts(y2, b2, s2, n2, p2)
  {
    SplitJoin(CanonicalParts(y1, b1, s1, n1, p1), '|');
    SplitJoin(CanonicalParts(y2, b2, s2, n2, p2), '|');
  }

  /** Letter case and surrounding whitespace of the four text fields do
      not reach the key: lower-casing them, stripping them, or both, gives
      the key of the fields as they are. */
  lemma BuildCanonicalIgnoresCase(year: Option<int>, brand: string, setName: string,
                                  cardNo: string, player: string)
    ensures BuildCanonical(year, Some(Lower(brand)), Some(Lower(setName)), Some(Lower(cardNo)), Some(Lower(player)))
         == BuildCanonical(year, Some(brand), Some(setName), Some(cardNo), Some(player))
    ensures BuildCanonical(year, Some(Strip(brand)), Some(Strip(setName)), Some(Strip(cardNo)), Some(Strip(player)))
         == BuildCanonical(year, Some(brand), Some(setName), Some(cardNo), Some(player))
    ensures BuildCanonical(year, Some(Lower(Strip(brand))), Some(Lower(Strip(setName))),
                           Some(Lower(Strip(cardNo))), Some(Lower(Strip(player))))
         == BuildCanonical(year, Some(brand), Some(setName), Some(cardNo), Some(player))
  {
    NormTextAbsorbs(brand);
    NormTextAbsorbs(setName);
    NormTextAbsorbs(cardNo);
    NormTextAbsorbs(player);
    NormTextAbsorbs(Strip(brand));
    NormTextAbsorbs(Strip(setName));
    NormTextAbsorbs(Strip(cardNo));
    NormTextAbsorbs(Strip(player));
  }
}
