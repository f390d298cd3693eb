/**
 * The status classifier of check_orders.py: the ordered emoji table, the
 * first-match glyph dispatch of `add_status_emoji` and the
 * `is_ready_for_pickup` predicate.
 */
module Status {
  import opened Text

  /**
   * The six glyphs of the table, as opaque distinct symbols (the source's
   * emoji bytes are not reproduced).
   */
  datatype Glyph = Factory | Package | CheckMark | CrossMark | Warning | QuestionMark

  /** A display label: the glyph, one space, then `text`. */
  datatype Label = Label(glyph: Glyph, text: string)

  /** `STATUS_EMOJIS`, in its insertion order. */
  const STATUS_EMOJIS: seq<(string, Glyph)> := [
    ("PROCESSING", Factory),
    ("SHIPPED", Package),
    ("DELIVERED", CheckMark),
    ("CANCELLED", CrossMark),
    ("ERROR", Warning),
    ("Unknown", QuestionMark)
  ]

  /** The glyph used when no key matches. */
  const DEFAULT_GLYPH: Glyph := QuestionMark

  /** `key.lower() in status_code.lower()` */
  predicate KeyMatches(key: string, code: string) {
    Contains(Lower(code), Lower(key))
  }

  /**
   * The index of the first table entry at or after `from` whose key matches
   * `code`, or `|table|` when none does.
   */
  function FirstMatch(table: seq<(string, Glyph)>, code: string, from: nat): (k: nat)
    requires from <= |table|
    ensures from <= k <= |table|
    ensures k < |table| ==> KeyMatches(table[k].0, code)
    ensures forall j :: from <= j < k ==> !KeyMatches(table[j].0, code)
    decreases |table| - from
  {
    if from == |table| then from
    else if KeyMatches(table[from].0, code) then from
    else FirstMatch(table, code, from + 1)
  }

  /** `add_status_emoji(status_code, status_text)` */
  function AddStatusEmoji(code: string, text: string): (r: Label)
    ensures r.text == text
    ensures (exists k :: 0 <= k < |STATUS_EMOJIS| && KeyMatches(STATUS_EMOJIS[k].0, code)
                        && r.glyph == STATUS_EMOJIS[k].1
                        && forall j :: 0 <= j < k ==> !KeyMatches(STATUS_EMOJIS[j].0, code))
         || ((forall k :: 0 <= k < |STATUS_EMOJIS| ==> !KeyMatches(STATUS_EMOJIS[k].0, code))
             && r.glyph == DEFAULT_GLYPH)
  {
    var k := FirstMatch(STATUS_EMOJIS, code, 0);
    Label(if k < |STATUS_EMOJIS| then STATUS_EMOJIS[k].1 else DEFAULT_GLYPH, text)
  }

  /** `is_ready_for_pickup(status_code)` */
  predicate IsReadyForPickup(code: string) {
    Upper(code) == "DELIVERED"
  }

  /** The table's keys in lower case, as the dispatch compares them. */
  lemma LoweredKeys()
    ensures Lower(STATUS_EMOJIS[0].0) == "processing"
    ensures Lower(STATUS_EMOJIS[1].0) == "shipped"
    ensures Lower(STATUS_EMOJIS[2].0) == "delivered"
    ensures Lower(STATUS_EMOJIS[3].0) == "cancelled"
    ensures Lower(STATUS_EMOJIS[4].0) == "error"
    ensures Lower(STATUS_EMOJIS[5].0) == "unknown"
  {
  }

  /** The glyph shown is that of the first key that matches. */
  lemma GlyphOfFirstMatch(code: string, text: string, k: nat)
    requires k < |STATUS_EMOJIS| && KeyMatches(STATUS_EMOJIS[k].0, code)
    requires forall j :: 0 <= j < k ==> !KeyMatches(STATUS_EMOJIS[j].0, code)
    ensures AddStatusEmoji(code, text) == Label(STATUS_EMOJIS[k].1, text)
  {
    var m := FirstMatch(STATUS_EMOJIS, code, 0);
    assert m == k;
  }

  /** Readiness is a case-insensitive exact comparison with "delivered". */
  lemma ReadyIffDelivered(code: string)
    ensures IsReadyForPickup(code) <==> Lower(code) == "delivered"
  {
    LowerOfUpper(code);
    UpperOfLower(code);
    assert Lower("DELIVERED") == "delivered";
    assert Upper("delivered") == "DELIVERED";
  }

  /** No key of the table is empty, so an empty code never matches. */
  lemma EmptyCodeTakesDefault(text: string)
    ensures AddStatusEmoji("", text) == Label(DEFAULT_GLYPH, text)
  {
    LoweredKeys();
    assert Lower("") == "";
    var k := FirstMatch(STATUS_EMOJIS, "", 0);
    assert k == |STATUS_EMOJIS|;
  }

  /** A code that is ready for pickup always shows the DELIVERED glyph. */
  lemma ReadyShowsCheckMark(code: string, text: string)
    requires IsReadyForPickup(code)
    ensures AddStatusEmoji(code, text) == Label(CheckMark, text)
  {
    ReadyIffDelivered(code);
    LoweredKeys();
    CharsOfOccurrence("delivered", "shipped");
    assert 's' in "shipped" && 's' !in "delivered";
    PrefixOccurs("delivered", "delivered");
    GlyphOfFirstMatch(code, text, 2);
  }

  /**
   * The glyph comes from a substring match: "DELIVERED_PARTIAL" shows the
   * DELIVERED glyph.
   */
  lemma PartialCodeShowsCheckMark(text: string)
    ensures AddStatusEmoji("DELIVERED_PARTIAL", text) == Label(CheckMark, text)
  {
    assert Lower("DELIVERED_PARTIAL") == "delivered_partial";
    LoweredKeys();
    PartialCodeSearches();
    GlyphOfFirstMatch("DELIVERED_PARTIAL", text, 2);
  }

  lemma PartialCodeSearches()
    ensures !Contains("delivered_partial", "processing")
    ensures !Contains("delivered_partial", "shipped")
    ensures Contains("delivered_partial", "delivered")
  {
    var s := "delivered_partial";
    CharsOfOccurrence(s, "processing");
    assert 'c' in "processing" && 'c' !in s;
    CharsOfOccurrence(s, "shipped");
    assert 's' in "shipped" && 's' !in s;
    PrefixOccurs(s, "delivered");
  }

  /**
   * Readiness is an exact comparison: "delivered" and "DELIVERED" are ready,
   * "DELIVERED_PARTIAL" is not.
   */
  lemma ReadinessExamples()
    ensures IsReadyForPickup("delivered") && IsReadyForPickup("DELIVERED")
    ensures !IsReadyForPickup("DELIVERED_PARTIAL")
  {
    assert Upper("delivered") == "DELIVERED";
    assert Upper("DELIVERED") == "DELIVERED";
    assert |Upper("DELIVERED_PARTIAL")| == 17;
  }

  /** An earlier key wins: a code matching both "processing" and "error" shows the factory. */
  lemma FirstKeyWins(text: string)
    ensures AddStatusEmoji("PROCESSING_ERROR", text).glyph == Factory
  {
    assert Lower("PROCESSING_ERROR") == "processing_error";
    LoweredKeys();
    PrefixOccurs("processing_error", "processing");
    GlyphOfFirstMatch("PROCESSING_ERROR", text, 0);
  }
}
