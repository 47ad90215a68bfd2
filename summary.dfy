/** The shortening step applied to long free-text fields before they are laid
    out in a report cell (`summarize_text_for_image`). */
module Summary {
  import opened Strings
  import opened Record

  /** What the text-generation service does with one summarisation request:
      it raises (network, quota, malformed response) or answers with a text.
      Its content is not specified, so the model takes it as an input. */
  datatype Reply = Failed | Replied(text: string)

  /** The default character budget of a cell. */
  const DefaultMaxChars := 400

  /** The marker appended when text is cut. */
  const Ellipsis := "..."

  /** The hard cut used when there is no API key or the service fails. */
  function Truncate(s: string, maxChars: int): string {
    SlicePrefix(s, maxChars) + Ellipsis
  }

  /** Shortens `v` for display. Non-text values and short texts come back
      unchanged; a long text becomes the service's stripped reply, or the
      hard cut when no API key is configured or the call fails. */
  function Summarize(v: Value, maxChars: int, apiKeySet: bool, reply: Reply): (r: Value)
    ensures !v.Text? || |v.s| <= maxChars ==> r == v
    ensures v.Text? ==> r.Text?
    ensures v.Text? && |v.s| > maxChars && 0 <= maxChars && (!apiKeySet || reply.Failed?) ==>
      && |r.s| == maxChars + |Ellipsis|
      && r.s[..maxChars] == v.s[..maxChars]
      && r.s[maxChars..] == Ellipsis
    ensures v.Text? && |v.s| > maxChars && apiKeySet && reply.Replied? ==>
      r.s == Strip(reply.text)
  {
    if !v.Text? || |v.s| <= maxChars then v
    else if !apiKeySet then Text(Truncate(v.s, maxChars))
    else match reply
      case Replied(t) => Text(Strip(t))
      case Failed => Text(Truncate(v.s, maxChars))
  }

  /** With the default budget and a failing service, an over-long text becomes
      its first 400 characters and "...", whatever else it contains: two texts
      that agree on those 400 characters are shortened to the same string. */
  lemma FallbackIgnoresTail(a: string, b: string, apiKeySet: bool)
    requires |a| > DefaultMaxChars && |b| > DefaultMaxChars
    requires a[..DefaultMaxChars] == b[..DefaultMaxChars]
    ensures Summarize(Text(a), DefaultMaxChars, apiKeySet, Failed)
         == Summarize(Text(b), DefaultMaxChars, apiKeySet, Failed)
    ensures |Summarize(Text(a), DefaultMaxChars, apiKeySet, Failed).s| == 403
  {
  }

  /** Shortening never makes a text longer than its budget plus the marker,
      unless the service itself answered with something longer. */
  lemma SummarizeBound(v: Value, maxChars: int, apiKeySet: bool, reply: Reply)
    requires v.Text? && 0 <= maxChars
    requires apiKeySet && reply.Replied? ==> |Strip(reply.text)| <= maxChars
    ensures |Summarize(v, maxChars, apiKeySet, reply).s| <= maxChars + |Ellipsis|
  {
  }

  /** The service's answer is kept as one slice of itself, from where its
      leading whitespace ends, with only whitespace outside that slice and a
      non-space character at each end. */
  lemma ReplyTrimmed(v: Value, maxChars: int, reply: Reply)
    requires v.Text? && |v.s| > maxChars && reply.Replied?
    ensures var r := Summarize(v, maxChars, true, reply).s;
      var i := StripStart(reply.text);
      && i + |r| <= |reply.text|
      && r == reply.text[i..i + |r|]
      && (forall k :: 0 <= k < i ==> IsSpace(reply.text[k]))
      && (forall k :: i + |r| <= k < |reply.text| ==> IsSpace(reply.text[k]))
      && (r == [] || (!IsSpace(r[0]) && !IsSpace(r[|r| - 1])))
  {
    assert Summarize(v, maxChars, true, reply).s == Strip(reply.text);
    StripIsTrimmedSlice(reply.text);
  }
}
