/**
 * Journal tags: the list is stored as one comma-joined text column
 * (`serialize_tags`) and read back by splitting on commas and dropping the
 * empty pieces (`JournalOut._tags_from_str`).
 */
module Tags {
  import opened Wrappers
  import opened Text

  /** Python's `str.strip()` with no argument. */
  function Strip(s: string): (r: string)
    ensures |r| <= |s|
    ensures |r| > 0 ==> !IsPyWhitespace(r[0]) && !IsPyWhitespace(r[|r| - 1])
  {
    Trim(s, IsPyWhitespace)
  }

  /** A tag as it is stored: stripped and not blank. */
  predicate IsCleanTag(t: string)
  {
    t != "" && Strip(t) == t
  }

  /** Every tag stripped. */
  function StripAll(tags: seq<string>): (r: seq<string>)
    ensures |r| == |tags|
  {
    seq(|tags|, i requires 0 <= i < |tags| => Strip(tags[i]))
  }

  /** `[t.strip() for t in tags if t and t.strip()]`. */
  function Clean(tags: seq<string>): (r: seq<string>)
    ensures |r| <= |tags|
    ensures forall j | 0 <= j < |r| :: r[j] != "" && r[j] in StripAll(tags)
    ensures forall i | 0 <= i < |tags| && StripAll(tags)[i] != "" :: StripAll(tags)[i] in r
  {
    if |tags| == 0 then []
    else
      var init := tags[..|tags| - 1];
      var t := Strip(tags[|tags| - 1]);
      var rest := Clean(init);
      assert StripAll(tags) == StripAll(init) + [t];
      assert forall i | 0 <= i < |init| :: StripAll(tags)[i] == StripAll(init)[i];
      if t == "" then rest else rest + [t]
  }

  /** One tag cleans to its stripped form, or to nothing when blank. */
  lemma CleanSingle(t: string)
    ensures Clean([t]) == if Strip(t) == "" then [] else [Strip(t)]
  {
    assert [t][..0] == [];
  }

  /** Cleaning distributes over concatenation, so it keeps order and multiplicity. */
  lemma {:induction false} CleanAppend(a: seq<string>, b: seq<string>)
    ensures Clean(a + b) == Clean(a) + Clean(b)
    decreases |b|
  {
    if |b| == 0 {
      assert a + b == a;
    } else {
      var init := b[..|b| - 1];
      assert (a + b)[..|a + b| - 1] == a + init;
      assert (a + b)[|a + b| - 1] == b[|b| - 1];
      CleanAppend(a, init);
    }
  }

  /** Cleaned tags are already stripped. */
  lemma CleanTagsAreStripped(tags: seq<string>)
    ensures forall j | 0 <= j < |Clean(tags)| :: IsCleanTag(Clean(tags)[j])
  {
    var r := Clean(tags);
    forall j | 0 <= j < |r|
      ensures IsCleanTag(r[j])
    {
      var i :| 0 <= i < |tags| && StripAll(tags)[i] == r[j];
      TrimIdempotent(tags[i], IsPyWhitespace);
    }
  }

  /** A comma-free tag stays comma-free once cleaned. */
  lemma CleanKeepsCommasOut(tags: seq<string>)
    requires forall i | 0 <= i < |tags| :: ',' !in tags[i]
    ensures forall j | 0 <= j < |Clean(tags)| :: ',' !in Clean(tags)[j]
  {
    var r := Clean(tags);
    forall j | 0 <= j < |r|
      ensures ',' !in r[j]
    {
      var i :| 0 <= i < |tags| && StripAll(tags)[i] == r[j];
      TrimKeepsOut(tags[i], IsPyWhitespace, ',');
    }
  }

  /**
   * `serialize_tags`: nothing to store for a missing list or one whose tags
   * are all blank; otherwise the cleaned tags, first occurrences only,
   * joined by commas.
   */
  function SerializeTags(tags: Option<seq<string>>): (r: Option<string>)
    ensures r.None? <==> tags.None? || Clean(tags.value) == []
    ensures r.Some? ==> r.value != ""
  {
    match tags
    case None => None
    case Some(ts) =>
      var cleaned := Clean(ts);
      if cleaned == [] then None
      else
        var deduped := Dedup(cleaned);
        assert cleaned[0] in deduped;
        assert |deduped[0]| > 0;
        JoinNonEmpty(deduped, ',');
        Some(Join(deduped, ','))
  }

  lemma JoinNonEmpty(xs: seq<string>, sep: char)
    requires |xs| >= 1 && xs[0] != ""
    ensures Join(xs, sep) != ""
  {
    if |xs| >= 2 {
      JoinCons(xs, sep);
    }
  }

  /** The tags a stored value stands for: the cleaned tags, first occurrences only. */
  function StoredTags(tags: Option<seq<string>>): (r: seq<string>)
    ensures Distinct(r)
    ensures forall j | 0 <= j < |r| :: IsCleanTag(r[j])
  {
    match tags
    case None => []
    case Some(ts) =>
      var r := Dedup(Clean(ts));
      CleanTagsAreStripped(ts);
      assert forall j | 0 <= j < |r| :: IsCleanTag(r[j]) by {
        forall j | 0 <= j < |r| ensures IsCleanTag(r[j]) {
          assert r[j] in Clean(ts);
        }
      }
      r
  }

  /** The stored value decoded by the output schema: a database NULL, a text, or a list already. */
  datatype TagsField = NullTags | TextTags(text: string) | ListTags(items: seq<string>)

  /** `JournalOut._tags_from_str`. */
  function TagsFromStr(v: TagsField): (r: seq<string>)
    ensures v.NullTags? ==> r == []
    ensures v.ListTags? ==> r == v.items
    ensures v.TextTags? ==> forall j | 0 <= j < |r| :: r[j] != "" && ',' !in r[j]
    ensures v == TextTags("") ==> r == []
    ensures v.TextTags? ==> r == NonEmpty(Split(v.text, ','))
  {
    match v
    case NullTags => []
    case TextTags(s) =>
      var r := NonEmpty(Split(s, ','));
      assert forall j | 0 <= j < |r| :: ',' !in r[j] by {
        forall j | 0 <= j < |r| ensures ',' !in r[j] {
          assert r[j] in Split(s, ',');
        }
      }
      r
    case ListTags(items) => items
  }

  /** A text of comma-joined pieces reads back as its non-empty pieces, in order. */
  lemma TagsFromJoin(pieces: seq<string>)
    requires |pieces| >= 1
    requires forall i | 0 <= i < |pieces| :: ',' !in pieces[i]
    ensures TagsFromStr(TextTags(Join(pieces, ','))) == NonEmpty(pieces)
  {
    SplitJoin(pieces, ',');
  }

  /** How the column holds a serialized value: NULL or text. */
  function AsStored(s: Option<string>): TagsField
  {
    match s
    case None => NullTags
    case Some(text) => TextTags(text)
  }

  /**
   * Round trip: when no tag contains a comma, reading back what was stored
   * gives the stripped, non-blank tags, each once, in order of first
   * occurrence; a missing or all-blank list reads back as no tags. The
   * stored text splits into exactly those tags, so no piece of it is empty.
   */
  lemma {:induction false} TagsRoundTrip(tags: Option<seq<string>>)
    requires tags.Some? ==> forall i | 0 <= i < |tags.value| :: ',' !in tags.value[i]
    ensures TagsFromStr(AsStored(SerializeTags(tags))) == StoredTags(tags)
    ensures SerializeTags(tags).Some? ==> Split(SerializeTags(tags).value, ',') == StoredTags(tags)
  {
    if tags.Some? && Clean(tags.value) != [] {
      var cleaned := Clean(tags.value);
      var deduped := Dedup(cleaned);
      CleanKeepsCommasOut(tags.value);
      assert cleaned[0] in deduped;
      forall k | 0 <= k < |deduped|
        ensures ',' !in deduped[k] && deduped[k] != ""
      {
        assert deduped[k] in cleaned;
      }
      SplitJoin(deduped, ',');
    }
  }

  /** The stored order is first-occurrence order of the cleaned tags. */
  lemma StoredTagsInFirstOccurrenceOrder(ts: seq<string>)
    ensures forall i, j | 0 <= i < j < |StoredTags(Some(ts))| ::
      FirstIndex(Clean(ts), StoredTags(Some(ts))[i]) < FirstIndex(Clean(ts), StoredTags(Some(ts))[j])
  {
    DedupFirstOccurrenceOrder(Clean(ts));
  }

  lemma SerializeCommaTag()
    ensures SerializeTags(Some(["a,b"])) == Some("a,b")
  {
    assert Strip("a,b") == "a,b";
    assert Clean(["a,b"]) == ["a,b"];
  }

  lemma ReadCommaText()
    ensures TagsFromStr(TextTags("a,b")) == ["a", "b"]
  {
    var s := "a,b";
    assert ',' !in "b";
    assert Split("b", ',') == ["b"];
    assert s[1] == ',' && ',' in s;
    assert IndexOf(s, ',') == 1;
    assert s[..1] == "a" && s[2..] == "b";
    assert Split(s, ',') == [s[..1]] + Split(s[2..], ',');
  }

  /** A tag containing a comma does not survive the round trip: it comes back as two tags. */
  lemma CommaTagSplits()
    ensures SerializeTags(Some(["a,b"])) == Some("a,b")
    ensures TagsFromStr(AsStored(SerializeTags(Some(["a,b"])))) == ["a", "b"]
  {
    SerializeCommaTag();
    ReadCommaText();
  }
}
