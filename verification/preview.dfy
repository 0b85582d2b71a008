/**
 * The body preview of a feed card in public/js/explore.js: newlines become
 * spaces, the text is cut to 150 characters, and '...' follows when the body
 * is longer than that. HTML escaping and the rest of the card are left out.
 */
module Preview {
  import opened Wrappers

  const PreviewLength := 150
  const Ellipsis := "..."

  function Min(a: int, b: int): int { if a <= b then a else b }

  /** `replace(/\n/g, ' ')` */
  function SpaceNewlines(s: string): (r: string)
    ensures |r| == |s|
    ensures forall i :: 0 <= i < |r| ==> r[i] == (if s[i] == '\n' then ' ' else s[i])
    decreases |s|
  {
    if |s| == 0 then ""
    else [if s[0] == '\n' then ' ' else s[0]] + SpaceNewlines(s[1..])
  }

  /** `(post.body || '').replace(/\n/g, ' ').slice(0, 150)`, with a null body as `None`. */
  function PreviewText(body: Option<string>): (r: string)
    ensures body.None? ==> r == ""
    ensures body.Some? ==> |r| == Min(PreviewLength, |body.value|)
    ensures body.Some? ==> forall i :: 0 <= i < |r| ==>
              r[i] == (if body.value[i] == '\n' then ' ' else body.value[i])
    ensures '\n' !in r
  {
    var text := if body.None? then "" else body.value;
    var spaced := SpaceNewlines(text);
    spaced[..Min(PreviewLength, |spaced|)]
  }

  /**
   * The preview paragraph of a card: absent when the preview is empty,
   * otherwise the preview followed by '...' when the body is longer than 150.
   */
  function PreviewParagraph(body: Option<string>): (r: Option<string>)
    ensures r.None? <==> body.None? || body.value == ""
    ensures r.Some? ==> |r.value| == (if |body.value| > PreviewLength then PreviewLength + 3 else |body.value|)
    ensures r.Some? ==> r.value[..Min(PreviewLength, |body.value|)] == PreviewText(body)
    ensures r.Some? && |body.value| > PreviewLength ==> r.value[PreviewLength..] == Ellipsis
  {
    var preview := PreviewText(body);
    if preview == "" then None
    else Some(preview + (if |body.value| > PreviewLength then Ellipsis else ""))
  }

  /** A short body without newlines is shown as it is, with no ellipsis. */
  lemma ShortPlainBodyShownWhole(body: string)
    requires 0 < |body| <= PreviewLength && '\n' !in body
    ensures PreviewParagraph(Some(body)) == Some(body)
  {
    var text := PreviewText(Some(body));
    assert forall i :: 0 <= i < |body| ==> body[i] != '\n';
    assert |text| == |body|;
    assert forall i :: 0 <= i < |body| ==> text[i] == body[i];
    assert text == body && text + "" == body;
  }

  /** Only the first 150 characters and whether there are more matter. */
  lemma PreviewIgnoresTail(a: string, b: string)
    requires |a| > PreviewLength && |b| > PreviewLength
    requires a[..PreviewLength] == b[..PreviewLength]
    ensures PreviewParagraph(Some(a)) == PreviewParagraph(Some(b))
  {
    var pa, pb := PreviewText(Some(a)), PreviewText(Some(b));
    assert forall i :: 0 <= i < PreviewLength ==> a[i] == a[..PreviewLength][i] == b[i];
    assert pa == pb;
  }
}
