/** How the marker strings relate to one another under substring search: no
    marker can be found starting inside another one, nor inside the literal
    glue the renderer puts between values. */
module MarkerFacts {
  import opened Text
  import opened TextFacts
  import opened Markers

  /** First character of every emoji marker ("ð"). */
  const EMOJI_LEAD: char := '\U{00F0}'
  /** First character of the bullet ("â"). */
  const BULLET_LEAD: char := '\U{00E2}'

  lemma Leads()
    ensures PAGE_MARKER[0] == EMOJI_LEAD && LOCATION_MARKER[0] == EMOJI_LEAD
    ensures DATE_EMOJI[0] == EMOJI_LEAD && NOTE_MARKER[0] == EMOJI_LEAD && NOTE_PREFIX[0] == EMOJI_LEAD
    ensures PAGE_EMOJI[0] == EMOJI_LEAD && LOCATION_EMOJI[0] == EMOJI_LEAD
    ensures BULLET[0] == BULLET_LEAD
    ensures |PAGE_MARKER| > 0 && |LOCATION_MARKER| > 0 && |NOTE_MARKER| > 0 && |NOTE_PREFIX| > 0
    ensures |PAGE_EMOJI| > 0 && |LOCATION_EMOJI| > 0 && |DATE_EMOJI| > 0 && |BULLET| > 0
    ensures PAGE_KEYWORD[0] == 'P' && LOCATION_KEYWORD[0] == 'L' && DATE_ADDED_KEYWORD[0] == 'D'
  {
  }

  /** The location marker cannot start inside the other literals. */
  lemma LocationMarkerClears()
    ensures Clear(NOTE_PREFIX, LOCATION_MARKER)
    ensures Clear("\n\n", LOCATION_MARKER)
    ensures Clear(PAGE_MARKER + " ", LOCATION_MARKER)
    ensures Clear(DATE_EMOJI + " ", LOCATION_MARKER)
    ensures Clear(METADATA_SEPARATOR, LOCATION_MARKER)
    ensures Clear(" ", LOCATION_MARKER)
  {
    ClearByMismatch(NOTE_PREFIX, LOCATION_MARKER, 2);
    ClearByLead("\n\n", LOCATION_MARKER);
    ClearByMismatch(PAGE_MARKER + " ", LOCATION_MARKER, 3);
    ClearByMismatch(DATE_EMOJI + " ", LOCATION_MARKER, 3);
    ClearByLead(METADATA_SEPARATOR, LOCATION_MARKER);
    ClearByLead(" ", LOCATION_MARKER);
  }

  /** The page marker cannot start inside the other literals. */
  lemma PageMarkerClears()
    ensures Clear(NOTE_PREFIX, PAGE_MARKER)
    ensures Clear("\n\n", PAGE_MARKER)
    ensures Clear(LOCATION_MARKER + " ", PAGE_MARKER)
    ensures Clear(DATE_EMOJI + " ", PAGE_MARKER)
    ensures Clear(METADATA_SEPARATOR, PAGE_MARKER)
    ensures Clear(" ", PAGE_MARKER)
  {
    ClearByMismatch(NOTE_PREFIX, PAGE_MARKER, 2);
    ClearByLead("\n\n", PAGE_MARKER);
    ClearByMismatch(LOCATION_MARKER + " ", PAGE_MARKER, 3);
    ClearByMismatch(DATE_EMOJI + " ", PAGE_MARKER, 3);
    ClearByLead(METADATA_SEPARATOR, PAGE_MARKER);
    ClearByLead(" ", PAGE_MARKER);
  }

  /** The note marker cannot start inside the metadata literals. */
  lemma NoteMarkerClears(sub: string)
    requires sub == NOTE_MARKER || sub == NOTE_PREFIX
    ensures Clear("\n\n", sub)
    ensures Clear(PAGE_MARKER + " ", sub)
    ensures Clear(LOCATION_MARKER + " ", sub)
    ensures Clear(DATE_EMOJI + " ", sub)
    ensures Clear(METADATA_SEPARATOR, sub)
    ensures Clear(" ", sub)
  {
    assert sub[..2] == NOTE_EMOJI[..2] && sub[2] == NOTE_EMOJI[2];
    ClearByLead("\n\n", sub);
    ClearByMismatch(PAGE_MARKER + " ", sub, 2);
    ClearByMismatch(LOCATION_MARKER + " ", sub, 2);
    ClearByMismatch(DATE_EMOJI + " ", sub, 2);
    ClearByLead(METADATA_SEPARATOR, sub);
    ClearByLead(" ", sub);
  }

  /** A line break cannot start inside the metadata literals. */
  lemma LineBreakClears()
    ensures Clear(PAGE_MARKER + " ", "\n")
    ensures Clear(LOCATION_MARKER + " ", "\n")
    ensures Clear(DATE_EMOJI + " ", "\n")
    ensures Clear(METADATA_SEPARATOR, "\n")
    ensures Clear(" ", "\n")
  {
    ClearByLead(PAGE_MARKER + " ", "\n");
    ClearByLead(LOCATION_MARKER + " ", "\n");
    ClearByLead(DATE_EMOJI + " ", "\n");
    ClearByLead(METADATA_SEPARATOR, "\n");
    ClearByLead(" ", "\n");
  }

  /** A search string that cannot start inside the glue the renderer puts
      around values, nor run across a line break, a space or an emoji. */
  predicate Label(sub: string) {
    && |sub| > 0 && '\n' !in sub && ' ' !in sub && EMOJI_LEAD !in sub
    && sub[0] !in NOTE_PREFIX && sub[0] !in DATE_EMOJI && sub[0] !in BULLET
  }

  /** The plain-text labels are such search strings; each cannot start inside
      the other marker. */
  lemma KeywordsAreLabels()
    ensures Label(PAGE_KEYWORD) && Label(LOCATION_KEYWORD)
    ensures PAGE_KEYWORD[0] !in LOCATION_MARKER && LOCATION_KEYWORD[0] !in PAGE_MARKER
  {
  }

  /** What a label cannot start inside. */
  lemma LabelClears(sub: string)
    requires Label(sub)
    ensures Clear(NOTE_PREFIX, sub) && Clear("\n\n", sub) && Clear(" ", sub)
    ensures Clear(DATE_EMOJI + " ", sub) && Clear(METADATA_SEPARATOR, sub)
  {
    ClearByLead(NOTE_PREFIX, sub);
    ClearByLead("\n\n", sub);
    ClearByLead(" ", sub);
    ClearByLead(DATE_EMOJI + " ", sub);
    ClearByLead(METADATA_SEPARATOR, sub);
  }

  /** Every metadata part starts with the (truncated) location emoji, so a
      metadata line is always recognised as one. */
  lemma PartsStartWithLocationEmoji(rest: string)
    ensures Contains(PAGE_MARKER + " " + rest, LOCATION_EMOJI)
    ensures Contains(LOCATION_MARKER + " " + rest, LOCATION_EMOJI)
    ensures Contains(DATE_EMOJI + " " + rest, LOCATION_EMOJI)
  {
    assert (PAGE_MARKER + " " + rest)[0..3] == LOCATION_EMOJI;
    assert MatchAt(PAGE_MARKER + " " + rest, 0, LOCATION_EMOJI);
    assert (LOCATION_MARKER + " " + rest)[0..3] == LOCATION_EMOJI;
    assert MatchAt(LOCATION_MARKER + " " + rest, 0, LOCATION_EMOJI);
    assert (DATE_EMOJI + " " + rest)[0..3] == LOCATION_EMOJI;
    assert MatchAt(DATE_EMOJI + " " + rest, 0, LOCATION_EMOJI);
  }

  /** A rendered note starts with the note marker. */
  lemma NoteStartsWithMarker(rest: string)
    ensures Contains(NOTE_PREFIX + rest, NOTE_MARKER)
  {
    assert (NOTE_PREFIX + rest)[0..|NOTE_MARKER|] == NOTE_MARKER;
    assert MatchAt(NOTE_PREFIX + rest, 0, NOTE_MARKER);
  }
}
