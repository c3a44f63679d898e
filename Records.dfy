/**
 * The business record that `extract_business_data` builds for one listing card,
 * and the sequence of records that a batch of cards adds to the results.
 *
 * XPath lookups are replaced by what they find: each field of a `Card` is the raw
 * text (or attribute) of the element the card's lookup returned, or None when the
 * lookup raised (no such element, stale element) and the field's `except` swallowed it.
 */
module Records {
  import opened Wrappers
  import opened Text

  /** The ten-key dictionary built per card, in its key order. */
  datatype Record = Record(
    srNo: int,
    businessName: string,
    address: string,
    phone: string,
    website: string,
    rating: string,
    reviews: string,
    category: string,
    location: string,
    scrapedDate: string)

  /** What the lookups inside one card return:
      - `nameText`: `.text` of the heading element;
      - `ratingLabel`: the `aria-label` attribute of the star element (None also when
        the attribute is absent, which Selenium reports as None);
      - `reviewsText`, `addressText`: `.text` of the review-count and address elements;
      - `raises`: an exception escapes the per-card `try` before the record is stored. */
  datatype Card = Card(
    nameText: Option<string>,
    ratingLabel: Option<string>,
    reviewsText: Option<string>,
    addressText: Option<string>,
    raises: bool)

  /** The rating text: every "stars" removed, then every "star", then stripped. */
  function NormalizeRating(aria: string): string {
    Strip(ReplaceAll(ReplaceAll(aria, "stars", ""), "star", ""))
  }

  /** A text field: the element's stripped text, or '' when the element was not found. */
  function FieldText(element: Option<string>): string {
    match element
    case None => ""
    case Some(text) => Strip(text)
  }

  /** The rating field: only a non-empty label is normalised; otherwise it stays ''. */
  function RatingField(aria: Option<string>): string {
    match aria
    case None => ""
    case Some(text) => if text == "" then "" else NormalizeRating(text)
  }

  /** The record built for `card` when it would be stored as number `srNo`. Phone and
      website are never filled in. */
  function Assemble(card: Card, srNo: int, keyword: string, location: string, today: string): Record {
    Record(srNo, FieldText(card.nameText), FieldText(card.addressText), "", "",
           RatingField(card.ratingLabel), FieldText(card.reviewsText), keyword, location, today)
  }

  /** A card yields a stored record when nothing raises and its stripped name is non-empty. */
  predicate Admitted(card: Card) {
    !card.raises && FieldText(card.nameText) != ""
  }

  /** The records a batch of cards appends to a result list that already holds `count`
      records: each admitted card in turn, numbered from `count + 1`. */
  function Harvest(cards: seq<Card>, count: nat, keyword: string, location: string, today: string): seq<Record>
    decreases |cards|
  {
    if cards == [] then []
    else if Admitted(cards[0]) then
      [Assemble(cards[0], count + 1, keyword, location, today)] + Harvest(cards[1..], count + 1, keyword, location, today)
    else Harvest(cards[1..], count, keyword, location, today)
  }

  /** The admitted cards, in their original order. */
  function Kept(cards: seq<Card>): seq<Card> {
    if cards == [] then []
    else (if Admitted(cards[0]) then [cards[0]] else []) + Kept(cards[1..])
  }

  /** Record numbers are 1, 2, 3, ... in list order. */
  predicate Numbered(results: seq<Record>) {
    forall i :: 0 <= i < |results| ==> results[i].srNo == i + 1
  }

  /** Every stored record has a business name. */
  predicate NamesPresent(results: seq<Record>) {
    forall i :: 0 <= i < |results| ==> results[i].businessName != ""
  }

  /** A batch yields exactly one record per admitted card, in card order, the k-th
      of them numbered `count + 1 + k`: cards are filtered and numbered, never
      reordered, and a skipped card uses up no number. */
  lemma {:induction false} HarvestIsKeptNumbered(cards: seq<Card>, count: nat, keyword: string, location: string, today: string)
    ensures |Harvest(cards, count, keyword, location, today)| == |Kept(cards)|
    ensures forall k :: 0 <= k < |Kept(cards)| ==>
              Harvest(cards, count, keyword, location, today)[k] == Assemble(Kept(cards)[k], count + 1 + k, keyword, location, today)
    decreases |cards|
  {
    if cards != [] {
      var rest := cards[1..];
      if Admitted(cards[0]) {
        HarvestIsKeptNumbered(rest, count + 1, keyword, location, today);
        var head := Assemble(cards[0], count + 1, keyword, location, today);
        assert Kept(cards) == [cards[0]] + Kept(rest);
        assert Harvest(cards, count, keyword, location, today)
               == [head] + Harvest(rest, count + 1, keyword, location, today);
        forall k | 0 <= k < |Kept(cards)|
          ensures Harvest(cards, count, keyword, location, today)[k]
                  == Assemble(Kept(cards)[k], count + 1 + k, keyword, location, today)
        {
          if k > 0 {
            assert Kept(cards)[k] == Kept(rest)[k - 1];
          }
        }
      } else {
        HarvestIsKeptNumbered(rest, count, keyword, location, today);
        assert Kept(cards) == Kept(rest);
      }
    }
  }

  /** Every card in `Kept` is admitted and comes from the batch. */
  lemma {:induction false} KeptAdmitted(cards: seq<Card>)
    ensures forall k :: 0 <= k < |Kept(cards)| ==> Admitted(Kept(cards)[k]) && Kept(cards)[k] in cards
    decreases |cards|
  {
    if cards != [] {
      KeptAdmitted(cards[1..]);
    }
  }

  /** A stored record numbered `srNo` with a name and the run's provenance. */
  predicate RecordOfRun(r: Record, srNo: int, keyword: string, location: string, today: string) {
    && r.srNo == srNo
    && r.businessName != ""
    && r.category == keyword && r.location == location
    && r.scrapedDate == today
    && r.phone == "" && r.website == ""
  }

  /** What every record of a batch holds: consecutive numbers after `count`, a
      non-empty name, the keyword and location in effect, the run's date, and no
      phone or website. */
  lemma HarvestRecords(cards: seq<Card>, count: nat, keyword: string, location: string, today: string)
    ensures forall k :: 0 <= k < |Harvest(cards, count, keyword, location, today)| ==>
              RecordOfRun(Harvest(cards, count, keyword, location, today)[k], count + 1 + k, keyword, location, today)
  {
    HarvestIsKeptNumbered(cards, count, keyword, location, today);
    KeptAdmitted(cards);
  }

  /** Harvesting a batch in two parts gives the same records as harvesting it at once,
      the second part numbered after the first. */
  lemma {:induction false} HarvestAppend(a: seq<Card>, b: seq<Card>, count: nat, keyword: string, location: string, today: string)
    ensures Harvest(a + b, count, keyword, location, today)
            == Harvest(a, count, keyword, location, today)
               + Harvest(b, count + |Harvest(a, count, keyword, location, today)|, keyword, location, today)
    decreases |a|
  {
    if a == [] {
      assert a + b == b;
    } else {
      assert (a + b)[1..] == a[1..] + b;
      if Admitted(a[0]) {
        HarvestAppend(a[1..], b, count + 1, keyword, location, today);
        var head := [Assemble(a[0], count + 1, keyword, location, today)];
        var left := Harvest(a[1..], count + 1, keyword, location, today);
        var right := Harvest(b, count + 1 + |left|, keyword, location, today);
        assert head + (left + right) == (head + left) + right;
      } else {
        HarvestAppend(a[1..], b, count, keyword, location, today);
      }
    }
  }

  /** One more card: the batch's records, followed by this card's record (numbered
      after them) when the card is admitted. */
  lemma HarvestSnoc(cards: seq<Card>, card: Card, count: nat, keyword: string, location: string, today: string)
    ensures var before := Harvest(cards, count, keyword, location, today);
      Harvest(cards + [card], count, keyword, location, today)
      == before + (if Admitted(card) then [Assemble(card, count + |before| + 1, keyword, location, today)] else [])
  {
    var n := count + |Harvest(cards, count, keyword, location, today)|;
    HarvestAppend(cards, [card], count, keyword, location, today);
    assert [card][1..] == [];
    assert Harvest([card][1..], n + 1, keyword, location, today) == [];
    assert Harvest([card][1..], n, keyword, location, today) == [];
  }

  /** One pass of the per-card loop: if the list was the original list followed by the
      records of the cards seen so far, then after this card's record is appended (or
      the card skipped) it is the original list followed by the records of one more card. */
  lemma StepAppends(start: seq<Record>, seen: seq<Card>, card: Card, before: seq<Record>, after: seq<Record>,
                    record: Record, keyword: string, location: string, today: string)
    requires before == start + Harvest(seen, |start|, keyword, location, today)
    requires record == Assemble(card, |before| + 1, keyword, location, today)
    requires after == if Admitted(card) then before + [record] else before
    ensures after == start + Harvest(seen + [card], |start|, keyword, location, today)
  {
    var done := Harvest(seen, |start|, keyword, location, today);
    HarvestSnoc(seen, card, |start|, keyword, location, today);
    var extra := if Admitted(card) then [record] else [];
    assert |before| + 1 == |start| + |done| + 1;
    assert Harvest(seen + [card], |start|, keyword, location, today) == done + extra;
    assert after == before + extra;
    assert start + (done + extra) == (start + done) + extra;
  }

  /** Appending a batch to a numbered list of named records keeps it numbered and named. */
  lemma AppendKeepsInvariant(results: seq<Record>, cards: seq<Card>, keyword: string, location: string, today: string)
    requires Numbered(results) && NamesPresent(results)
    ensures var all := results + Harvest(cards, |results|, keyword, location, today);
      Numbered(all) && NamesPresent(all)
  {
    var added := Harvest(cards, |results|, keyword, location, today);
    HarvestRecords(cards, |results|, keyword, location, today);
    var all := results + added;
    forall i | 0 <= i < |all| ensures all[i].srNo == i + 1 && all[i].businessName != "" {
      if i < |results| {
        assert all[i] == results[i];
      } else {
        var k := i - |results|;
        assert all[i] == added[k];
        assert RecordOfRun(added[k], |results| + 1 + k, keyword, location, today);
      }
    }
  }

  // ---------------------------------------------------------------------------
  // The rating normalisation.

  /** Text without leading or trailing whitespace is left alone by `strip`. */
  lemma StripUntrimmed(s: string)
    requires s == [] || (!IsSpace(s[0]) && !IsSpace(s[|s| - 1]))
    ensures Strip(s) == s
  {
  }

  /** "stars" contains "star", so a label free of "star" is free of "stars" too. */
  lemma NoStarNoStars(aria: string)
    requires !Contains(aria, "star")
    ensures !Contains(aria, "stars")
  {
    if Contains(aria, "stars") {
      var i :| 0 <= i <= |aria| - 5 && OccursAt(aria, "stars", i);
      assert aria[i..i + 4] == aria[i..i + 5][..4];
      assert OccursAt(aria, "star", i);
    }
  }

  /** A label that never says "star" is only stripped. */
  lemma RatingWithoutStar(aria: string)
    requires !Contains(aria, "star")
    ensures NormalizeRating(aria) == Strip(aria)
  {
    NoStarNoStars(aria);
    ReplaceAbsent(aria, "stars", "");
    ReplaceAbsent(aria, "star", "");
  }

  /** One step of the scan past a character that cannot start `pat`. */
  lemma ReplaceSkip(s: string, pat: string, rep: string)
    requires |pat| > 0 && |s| > 0 && s[0] != pat[0]
    ensures ReplaceAll(s, pat, rep) == [s[0]] + ReplaceAll(s[1..], pat, rep)
  {
    if |s| >= |pat| {
      assert s[..|pat|][0] != pat[0];
    }
  }

  /** First step of `RatingOfStars`: removing "stars" from "4.5 stars" leaves "4.5 ". */
  lemma RemoveStarsFrom45()
    ensures ReplaceAll("4.5 stars", "stars", "") == "4.5 "
  {
    var stars := "stars";
    var s := "4.5 stars";
    assert s[4..] == stars;
    assert ReplaceAll(s[4..], stars, "") == "";
    ReplaceSkip(s[3..], stars, "");
    ReplaceSkip(s[2..], stars, "");
    ReplaceSkip(s[1..], stars, "");
    ReplaceSkip(s, stars, "");
    assert s[3..][1..] == s[4..] && s[2..][1..] == s[3..] && s[1..][1..] == s[2..];
  }

  /** Second step of `RatingOfStars`: "4.5 " has no "star" to remove. */
  lemma NoStarIn45()
    ensures ReplaceAll("4.5 ", "star", "") == "4.5 "
  {
    var t := "4.5 ";
    ReplaceSkip(t, "star", "");
    assert |t[1..]| < 4;
  }

  /** Last step of `RatingOfStars`: stripping "4.5 " drops the trailing space. */
  lemma Strip45()
    ensures Strip("4.5 ") == "4.5"
  {
    var t := "4.5 ";
    assert TrimStart(t) == t;
    assert TrimEnd(t) == t[..3];
  }

  /** "4.5 stars" is read as "4.5". */
  lemma RatingOfStars()
    ensures NormalizeRating("4.5 stars") == "4.5"
  {
    RemoveStarsFrom45();
    NoStarIn45();
    Strip45();
  }

  /** First step of `RatingMayStillSayStar`: "ststarar" has no "stars" to remove. */
  lemma NoStarsInStstarar()
    ensures ReplaceAll("ststarar", "stars", "") == "ststarar"
  {
    var stars := "stars";
    var s := "ststarar";
    assert |s[4..]| < 5;
    ReplaceSkip(s[3..], stars, "");
    assert s[3..][1..] == s[4..];
    assert s[2..][..5] != stars by { assert s[2..][..5][4] != stars[4]; }
    assert s[2..][1..] == s[3..];
    ReplaceSkip(s[1..], stars, "");
    assert s[1..][1..] == s[2..];
    assert s[..5] != stars by { assert s[..5][2] != stars[2]; }
  }

  /** Second step of `RatingMayStillSayStar`: removing "star" from "ststarar" in one
      left-to-right pass leaves "star". */
  lemma OneStarInStstarar()
    ensures ReplaceAll("ststarar", "star", "") == "star"
  {
    var star := "star";
    var s := "ststarar";
    assert s[6..] == "ar";
    assert ReplaceAll(s[6..], star, "") == "ar";
    assert s[2..][..4] == star && s[2..][4..] == s[6..];
    assert ReplaceAll(s[2..], star, "") == "ar";
    ReplaceSkip(s[1..], star, "");
    assert s[1..][1..] == s[2..];
    assert s[..4] != star by { assert s[..4][2] != star[2]; }
  }

  /** Removal does not rescan its own output: "ststarar" loses its one "star" and
      the pieces around it join into a new "star", which stays. */
  lemma RatingMayStillSayStar()
    ensures NormalizeRating("ststarar") == "star"
    ensures Contains(NormalizeRating("ststarar"), "star")
  {
    NoStarsInStstarar();
    OneStarInStstarar();
    StripUntrimmed("star");
    assert OccursAt("star", "star", 0);
  }

  /** The card of `BakeryScenario` named "Sunny Bakery" and labelled "4.5 stars",
      stored as number 1, gives the record rated "4.5" with empty phone and website. */
  lemma SunnyBakeryRecord(today: string)
    ensures Assemble(Card(Some("Sunny Bakery"), Some("4.5 stars"), None, None, false), 1, "bakery", "Springfield", today)
            == Record(1, "Sunny Bakery", "", "", "", "4.5", "", "bakery", "Springfield", today)
  {
    StripUntrimmed("Sunny Bakery");
    RatingOfStars();
  }

  /** An admitted card followed by a rejected one yields exactly the first card's
      record, numbered next. */
  lemma HarvestOfPair(a: Card, b: Card, count: nat, keyword: string, location: string, today: string)
    requires Admitted(a) && !Admitted(b)
    ensures Harvest([a, b], count, keyword, location, today) == [Assemble(a, count + 1, keyword, location, today)]
  {
    var cards := [a, b];
    assert cards[0] == a && cards[1..] == [b];
    var rest := [b];
    assert rest[0] == b && rest[1..] == [];
    assert Harvest(rest, count + 1, keyword, location, today) == [];
  }

  /** Two cards, one named "Sunny Bakery" with the label "4.5 stars" and one with no
      name element: exactly one record is stored, numbered 1, rated "4.5". */
  lemma BakeryScenario(today: string)
    ensures var a := Card(Some("Sunny Bakery"), Some("4.5 stars"), None, None, false);
      var b := Card(None, Some("4 stars"), Some("12 reviews"), None, false);
      Harvest([a, b], 0, "bakery", "Springfield", today)
      == [Record(1, "Sunny Bakery", "", "", "", "4.5", "", "bakery", "Springfield", today)]
  {
    var a := Card(Some("Sunny Bakery"), Some("4.5 stars"), None, None, false);
    var b := Card(None, Some("4 stars"), Some("12 reviews"), None, false);
    StripUntrimmed("Sunny Bakery");
    HarvestOfPair(a, b, 0, "bakery", "Springfield", today);
    SunnyBakeryRecord(today);
  }
}
