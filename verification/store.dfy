/**
 `load_memory`: the journal file's content, if the file exists, is stripped
 and decoded; a missing file, blank content or content that does not decode
 all give the empty journal instead of an error.
 */
module Store {
  import opened Wrappers
  import opened Whitespace
  import opened Journal

  /** `json.loads` applied to the stored document, as a parameter: any
      partial function from text to a journal. */
  type DocDecoder = string -> Option<Memory>

  /** The journal as loaded from `content` (`None` when the file is absent). */
  function Load(content: Option<string>, decode: DocDecoder): (m: Memory)
    ensures content.None? ==> m == map[]
    ensures content.Some? && AllSpace(content.value) ==> m == map[]
    ensures content.Some? && decode(Strip(content.value)).None? ==> m == map[]
    ensures m != map[] ==> content.Some? && decode(Strip(content.value)) == Some(m)
    ensures content.Some? && Strip(content.value) != [] && decode(Strip(content.value)).Some?
            ==> m == decode(Strip(content.value)).value
  {
    match content
    case None => map[]
    case Some(text) =>
      var stripped := Strip(text);
      if stripped == [] then map[]
      else
        match decode(stripped)
        case Some(m) => m
        case None => map[]
  }

  /** Loading depends only on the stripped content: whitespace around the
      document makes no difference. */
  lemma LoadIgnoresPadding(w1: string, text: string, w2: string, decode: DocDecoder)
    requires AllSpace(w1) && AllSpace(w2)
    ensures Load(Some(w1 + text + w2), decode) == Load(Some(text), decode)
  {
    StripIgnoresPadding(w1, text, w2);
  }

  /** A document that decodes to a journal loads as that journal, for any
      decoder that never accepts blank text. */
  lemma LoadDecoded(text: string, decode: DocDecoder, m: Memory)
    requires decode(Strip(text)) == Some(m)
    requires decode([]) == None
    ensures Load(Some(text), decode) == m
  {
  }
}
