/** How a bot message is rendered (`renderMessageText` in
    frontend/src/App.js). The split of the text by the URL regular expression
    is not modelled: the renderer receives the parts it produced, where a
    part may be `undefined` (a capture group that did not take part in the
    match), and the test `part.match(urlRegex)` is an abstract predicate. */
module Links {
  import opened Options

  /** What React receives for one part: plain text or an anchor element. */
  datatype Segment = Plain(text: string) | Link(text: string, href: string)

  const HttpsPrefix: string := "https://"

  /** The `href` of a link: the part itself if it already starts with "http",
      otherwise the part behind "https://". */
  function Href(part: string): (href: string)
    ensures "http" <= href
    ensures |href| >= |part| && href[|href| - |part|..] == part
    ensures "http" <= part <==> href == part
    ensures !("http" <= part) ==> href == HttpsPrefix + part
  {
    if "http" <= part then part else HttpsPrefix + part
  }

  /** A target is never rewritten twice. */
  lemma HrefIdempotent(part: string)
    ensures Href(Href(part)) == Href(part)
  {
  }

  /** The test a part must pass to become a link: it matches the URL
      expression, contains a dot and contains no space character. */
  function IsLinkPart(part: string, looksLikeUrl: string -> bool): (ok: bool)
    ensures ok <==> && looksLikeUrl(part)
                    && (exists k :: 0 <= k < |part| && part[k] == '.')
                    && (forall k :: 0 <= k < |part| ==> part[k] != ' ')
  {
    looksLikeUrl(part) && '.' in part && ' ' !in part
  }

  /** One part of the split: `undefined` and "" render as nothing. */
  function RenderPart(part: Option<string>, looksLikeUrl: string -> bool): (r: Option<Segment>)
    ensures r.None? <==> part.None? || part.value == []
    ensures r.Some? ==> r.value.text == part.value
    ensures r.Some? ==> (r.value.Link? <==> IsLinkPart(part.value, looksLikeUrl))
    ensures r.Some? && r.value.Link? ==> r.value.href == Href(part.value)
  {
    match part
    case None => None
    case Some(p) =>
      if p == [] then None
      else if IsLinkPart(p, looksLikeUrl) then Some(Link(p, Href(p)))
      else Some(Plain(p))
  }

  /** The text of the defined parts, concatenated. */
  function PartsText(parts: seq<Option<string>>): string
  {
    if parts == [] then []
    else (match parts[0] case None => [] case Some(p) => p) + PartsText(parts[1..])
  }

  /** The text a reader sees, concatenated. */
  function SegmentsText(segs: seq<Segment>): string
  {
    if segs == [] then [] else segs[0].text + SegmentsText(segs[1..])
  }

  /** The whole `parts.map(...)`, with nulls dropped. */
  function Render(parts: seq<Option<string>>, looksLikeUrl: string -> bool): (segs: seq<Segment>)
    ensures |segs| <= |parts|
    ensures forall k :: 0 <= k < |segs| ==> segs[k].text != []
    ensures forall k :: 0 <= k < |segs| && segs[k].Link? ==>
              IsLinkPart(segs[k].text, looksLikeUrl) && segs[k].href == Href(segs[k].text)
    ensures forall k :: 0 <= k < |segs| && segs[k].Plain? ==> !IsLinkPart(segs[k].text, looksLikeUrl)
  {
    if parts == [] then []
    else
      var rest := Render(parts[1..], looksLikeUrl);
      match RenderPart(parts[0], looksLikeUrl)
      case None => rest
      case Some(seg) => [seg] + rest
  }

  lemma SegmentsTextAppend(a: seq<Segment>, b: seq<Segment>)
    ensures SegmentsText(a + b) == SegmentsText(a) + SegmentsText(b)
  {
    if a != [] {
      assert (a + b)[0] == a[0] && (a + b)[1..] == a[1..] + b;
      SegmentsTextAppend(a[1..], b);
    } else {
      assert a + b == b;
    }
  }

  /** Rendering shows every character of the parts, in order, and adds none:
      a link displays its original text, never the synthesised scheme. */
  lemma {:induction false} RenderKeepsText(parts: seq<Option<string>>, looksLikeUrl: string -> bool)
    ensures SegmentsText(Render(parts, looksLikeUrl)) == PartsText(parts)
  {
    if parts != [] {
      RenderKeepsText(parts[1..], looksLikeUrl);
      var rest := Render(parts[1..], looksLikeUrl);
      match RenderPart(parts[0], looksLikeUrl)
      case None =>
      case Some(seg) =>
        SegmentsTextAppend([seg], rest);
    }
  }

  /** A single part renders to its own segment, or to nothing. */
  lemma RenderSingle(part: Option<string>, looksLikeUrl: string -> bool)
    ensures RenderPart(part, looksLikeUrl).None? ==> Render([part], looksLikeUrl) == []
    ensures RenderPart(part, looksLikeUrl).Some? ==> Render([part], looksLikeUrl) == [RenderPart(part, looksLikeUrl).value]
  {
  }

  /** Rendering works part by part: the segments of two runs of parts are
      the segments of each, in order. With `RenderSingle` this ties every
      segment to the part it came from. */
  lemma {:induction false} RenderAppend(p: seq<Option<string>>, q: seq<Option<string>>, looksLikeUrl: string -> bool)
    ensures Render(p + q, looksLikeUrl) == Render(p, looksLikeUrl) + Render(q, looksLikeUrl)
  {
    if p == [] {
      assert p + q == q;
    } else {
      assert (p + q)[0] == p[0] && (p + q)[1..] == p[1..] + q;
      RenderAppend(p[1..], q, looksLikeUrl);
    }
  }
}
