/**
 * The state `GoogleMapsExtractor` keeps between calls, and the operations that
 * change it: recording the search query, clearing the results before a run, and
 * `extract_business_data`, which appends one record per usable listing card.
 */
module Extractor {
  import opened Wrappers
  import opened Text
  import opened Records

  class GoogleMapsExtractor {
    /** `self.results`: the records gathered so far, in insertion order. */
    var results: seq<Record>
    /** `self.total_businesses_scraped`. */
    var total: nat
    /** `self.current_keyword` and `self.current_location`. */
    var currentKeyword: string
    var currentLocation: string

    /** The invariant every method keeps: the records are numbered 1..n in order,
        each has a name, and the counter equals the number of records. */
    ghost predicate Valid()
      reads this
    {
      Numbered(results) && NamesPresent(results) && total == |results|
    }

    /** `__init__`: no records, a zero counter, an empty query. */
    constructor ()
      ensures Valid()
      ensures results == [] && total == 0
      ensures currentKeyword == "" && currentLocation == ""
    {
      results := [];
      total := 0;
      currentKeyword := "";
      currentLocation := "";
    }

    /** The state change of `search_businesses`: the query in effect for the records
        extracted next. The browser interaction that follows is not modelled. */
    method Search(keyword: string, location: string)
      modifies this
      ensures currentKeyword == keyword && currentLocation == location
      ensures results == old(results) && total == old(total)
    {
      currentKeyword := keyword;
      currentLocation := location;
    }

    /** The paired reset done before every run: the records and the counter are cleared
        together. */
    method ClearResults()
      modifies this
      ensures Valid()
      ensures results == [] && total == 0
      ensures currentKeyword == old(currentKeyword) && currentLocation == old(currentLocation)
    {
      results := [];
      total := 0;
    }

    /** The dictionary built for one card (the body of the per-card `try`): defaults
        first, then each field whose element was found overwritten with its stripped
        text, the rating with its normalised non-empty label. */
    method BuildRecord(card: Card, srNo: int, today: string) returns (record: Record)
      ensures record == Assemble(card, srNo, currentKeyword, currentLocation, today)
      ensures record.businessName != "" <==> FieldText(card.nameText) != ""
    {
      record := Record(srNo, "", "", "", "", "", "", currentKeyword, currentLocation, today);
      match card.nameText {
        case Some(text) => record := record.(businessName := Strip(text));
        case None =>
      }
      match card.ratingLabel {
        case Some(text) =>
          if text != "" {
            record := record.(rating := NormalizeRating(text));
          }
        case None =>
      }
      match card.reviewsText {
        case Some(text) => record := record.(reviews := Strip(text));
        case None =>
      }
      match card.addressText {
        case Some(text) => record := record.(address := Strip(text));
        case None =>
      }
    }

    /** `extract_business_data`: `cards` is what the card query returned (None when
        it raised, in which case False is returned and nothing changes) and `today`
        the date stamped on every record. For each card a record numbered
        `len(results) + 1` is built; it is appended, and the counter incremented,
        only when nothing raised and its name is non-empty. Earlier records are never
        touched. */
    method ExtractBusinessData(cards: Option<seq<Card>>, today: string) returns (ok: bool)
      modifies this
      ensures ok == cards.Some?
      ensures cards.None? ==> results == old(results)
      ensures cards.Some? ==>
                results == old(results) + Harvest(cards.value, |old(results)|, currentKeyword, currentLocation, today)
      ensures total == old(total) + (|results| - |old(results)|)
      ensures currentKeyword == old(currentKeyword) && currentLocation == old(currentLocation)
      ensures old(Valid()) ==> Valid()
    {
      if cards.None? {
        return false;
      }
      var batch := cards.value;
      var i := 0;
      while i < |batch|
        invariant 0 <= i <= |batch|
        invariant results == old(results) + Harvest(batch[..i], |old(results)|, currentKeyword, currentLocation, today)
        invariant total == old(total) + (|results| - |old(results)|)
        invariant currentKeyword == old(currentKeyword) && currentLocation == old(currentLocation)
      {
        var card := batch[i];
        var before := results;
        var record := BuildRecord(card, |results| + 1, today);
        if !card.raises && record.businessName != "" {
          results := results + [record];
          total := total + 1;
        }
        StepAppends(old(results), batch[..i], card, before, results, record, currentKeyword, currentLocation, today);
        assert batch[..i + 1] == batch[..i] + [card];
        i := i + 1;
      }
      assert batch[..i] == batch;
      if old(Valid()) {
        AppendKeepsInvariant(old(results), batch, currentKeyword, currentLocation, today);
      }
      return true;
    }
  }
}
