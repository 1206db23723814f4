/** The marker strings the renderer writes into Notion blocks and the reader
    looks for again. The source file holds them as mojibake: the UTF-8 bytes of
    the emoji read back as Windows-1252 text. They are spelled out here code
    point by code point, exactly as they appear in the source. */
module Markers {

  /** "ðŸ“„", the page emoji as it appears in the source. */
  const PAGE_EMOJI: string := "\U{00F0}\U{0178}\U{201C}\U{201E}"
  /** "ðŸ“", the location emoji as it appears in the source; its last byte was
      lost, so it is a prefix of the page and date emoji. */
  const LOCATION_EMOJI: string := "\U{00F0}\U{0178}\U{201C}"
  /** "ðŸ“…", the calendar emoji as it appears in the source. */
  const DATE_EMOJI: string := "\U{00F0}\U{0178}\U{201C}\U{2026}"
  /** "ðŸ’¡", the light-bulb emoji used as the callout icon of a note. */
  const NOTE_EMOJI: string := "\U{00F0}\U{0178}\U{2019}\U{00A1}"
  /** "â€¢", the bullet between metadata parts. */
  const BULLET: string := "\U{00E2}\U{20AC}\U{00A2}"

  const PAGE_MARKER: string := PAGE_EMOJI + " Page"
  const LOCATION_MARKER: string := LOCATION_EMOJI + " Location"
  const NOTE_MARKER: string := NOTE_EMOJI + " NOTE"
  /** The first line of every rendered note, followed by a blank line. */
  const NOTE_PREFIX: string := NOTE_MARKER + "\n\n"
  /** Separator between the parts of the metadata line. */
  const METADATA_SEPARATOR: string := " " + BULLET + " "

  /** Plain-text labels of an older rendering the reader still recognises. */
  const PAGE_KEYWORD: string := "Page:"
  const LOCATION_KEYWORD: string := "Location:"
  const DATE_ADDED_KEYWORD: string := "Date Added:"

  /** Identity keys keep this many characters of the clipping text. */
  const ID_TEXT_LENGTH: nat := 50

  /** Separator between the text, location and page of an identity key. */
  const KEY_SEPARATOR: string := "|"

  /** Most blocks one append request to Notion may carry. */
  const BATCH_SIZE: nat := 100
}
