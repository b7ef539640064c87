/**
 * `extract_title`, defined identically in the directory and the subdomain
 * enumeration tools: the stripped text between the first `<title>` and the
 * first `</title>` after it, matched case-sensitively.
 */
module Html {

  import opened Wrappers
  import opened Strings

  const OpenTag := "<title>"
  const CloseTag := "</title>"

  /** A closing tag cannot start inside an opening tag. */
  lemma {:induction false} CloseAfterOpen(html: string, s: nat, e: nat)
    requires OccursAt(html, OpenTag, s) && OccursAt(html, CloseTag, e) && s <= e
    ensures s + |OpenTag| <= e
  {
    assert html[e..e + 8] == CloseTag;
    assert html[e] == '<' && html[e + 1] == '/';
    assert forall k :: s <= k < s + 7 ==> html[k] == html[s..s + 7][k - s];
    assert forall k :: 1 <= k < 7 ==> OpenTag[k] != '<';
    assert OpenTag[1] != '/';
  }

  function ExtractTitle(html: string): (r: Option<string>)
    ensures r.Some? ==> Contains(html, OpenTag) && Contains(html, CloseTag)
  {
    match Find(html, OpenTag, 0)
    case None => None
    case Some(s) =>
      match Find(html, CloseTag, s)
      case None => None
      case Some(e) =>
        CloseAfterOpen(html, s, e);
        ContainsAt(html, CloseTag, e);
        Some(Strip(html[s + |OpenTag|..e]))
  }

  /** With the first `<title>` at `s` and the first `</title>` from `s` on at `e`, the title is the stripped text between them. */
  lemma {:induction false} TitleBetween(html: string, s: nat, e: nat)
    requires OccursAt(html, OpenTag, s) && forall j :: 0 <= j < s ==> !OccursAt(html, OpenTag, j)
    requires s <= e && OccursAt(html, CloseTag, e) && forall j :: s <= j < e ==> !OccursAt(html, CloseTag, j)
    ensures s + |OpenTag| <= e
    ensures ExtractTitle(html) == Some(Strip(html[s + |OpenTag|..e]))
  {
    CloseAfterOpen(html, s, e);
    FindFirst(html, OpenTag, 0, s);
    FindFirst(html, CloseTag, s, e);
  }

  /** No `<title>` (in this exact case) means no title. */
  lemma NoOpenTag(html: string)
    requires forall j :: 0 <= j ==> !OccursAt(html, OpenTag, j)
    ensures ExtractTitle(html) == None
  {
  }

  /** No `</title>` after the first `<title>` means no title, even when one comes before it. */
  lemma NoCloseTag(html: string, s: nat)
    requires OccursAt(html, OpenTag, s) && forall j :: 0 <= j < s ==> !OccursAt(html, OpenTag, j)
    requires forall j :: s <= j ==> !OccursAt(html, CloseTag, j)
    ensures ExtractTitle(html) == None
  {
  }
}
