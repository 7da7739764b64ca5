/** The OpenAI Whisper API transcriber: the decoded `verbose_json` response
    is turned into paragraphs with the shared segment loop, or, when the
    response has no `segments` key, into one untimed paragraph. */
module TranscriberApi {
  import opened Wrappers
  import opened Text
  import opened Segments

  /** The decoded response: optional `segments` and `text` keys. */
  datatype Response = Response(segments: Option<seq<Segment>>, text: Option<string>)

  /** The paragraphs `transcribe` builds from the response. */
  method ResponseParagraphs(response: Response, gap: real) returns (paragraphs: seq<Paragraph>)
    ensures response.segments.Some? ==> paragraphs == Aggregate(Cleaned(response.segments.value), gap)
    ensures response.segments.None? ==>
      paragraphs == [Paragraph(0.0, 0.0, if response.text.Some? then response.text.value else "")]
  {
    if response.segments.Some? {
      paragraphs := ProcessSegments(response.segments.value, gap);
    } else {
      paragraphs := [Paragraph(0.0, 0.0, if response.text.Some? then response.text.value else "")];
    }
  }
}
