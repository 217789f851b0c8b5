/** The navigation highlighter (the `sectionObserver` callback in script.js).

    The navigation links are identified by their `href`s, in document order,
    and their "active" classes by a parallel sequence of flags. One callback
    invocation processes a batch of intersection entries in order. */
module SectionHighlighter {
  import opened Wrappers

  /** One intersection entry: whether its section now intersects, and the
      section element's `id`. */
  datatype Entry = Entry(isIntersecting: bool, targetId: string)

  /** The link target that selects a section. */
  function Href(id: string): string { "#" + id }

  /** `document.querySelector` over the links: the first one, in document
      order, whose `href` is `href`. */
  function FirstLink(hrefs: seq<string>, href: string): (r: Option<nat>)
    ensures r.Some? ==> r.value < |hrefs| && hrefs[r.value] == href
    ensures r.Some? ==> forall k :: 0 <= k < r.value ==> hrefs[k] != href
    ensures r.None? <==> href !in hrefs
  {
    if |hrefs| == 0 then None
    else if hrefs[0] == href then Some(0)
    else match FirstLink(hrefs[1..], href)
      case None => None
      case Some(k) => Some(k + 1)
  }

  /** Exactly the flag at `k` is set, or none when `k` is `None`. */
  predicate OnlyAt(flags: seq<bool>, k: Option<nat>) {
    forall i :: 0 <= i < |flags| ==> (flags[i] <==> k == Some(i))
  }

  predicate AtMostOneActive(flags: seq<bool>) {
    forall i, j :: 0 <= i < |flags| && 0 <= j < |flags| && flags[i] && flags[j] ==> i == j
  }

  /** The body run for one entry: a non-intersecting entry is skipped;
      otherwise every link is made inactive and then the first link for the
      entry's section, if there is one, is made active. */
  function HandleEntry(hrefs: seq<string>, active: seq<bool>, e: Entry): (r: seq<bool>)
    requires |active| == |hrefs|
    ensures |r| == |hrefs|
    ensures !e.isIntersecting ==> r == active
    ensures e.isIntersecting ==> OnlyAt(r, FirstLink(hrefs, Href(e.targetId)))
  {
    if !e.isIntersecting then active
    else
      var cleared := seq(|hrefs|, _ => false);
      match FirstLink(hrefs, Href(e.targetId))
      case None => cleared
      case Some(k) => cleared[k := true]
  }

  /** The last intersecting entry of a batch, if any. */
  function LastIntersecting(entries: seq<Entry>): (r: Option<Entry>)
    ensures r.Some? ==> r.value in entries && r.value.isIntersecting
    ensures r.None? <==> forall k :: 0 <= k < |entries| ==> !entries[k].isIntersecting
  {
    if |entries| == 0 then None
    else match LastIntersecting(entries[1..])
      case Some(e) => Some(e)
      case None => if entries[0].isIntersecting then Some(entries[0]) else None
  }

  /** One callback invocation: the entries are handled in order. Only the
      last intersecting entry decides the outcome; a batch without one
      leaves the links as they were. */
  function HandleBatch(hrefs: seq<string>, active: seq<bool>, entries: seq<Entry>): (r: seq<bool>)
    requires |active| == |hrefs|
    ensures |r| == |hrefs|
    ensures LastIntersecting(entries).None? ==> r == active
    ensures LastIntersecting(entries).Some? ==>
              OnlyAt(r, FirstLink(hrefs, Href(LastIntersecting(entries).value.targetId)))
    decreases |entries|
  {
    if |entries| == 0 then active
    else HandleBatch(hrefs, HandleEntry(hrefs, active, entries[0]), entries[1..])
  }

  /** After a batch with an intersecting entry, at most one link is active. */
  lemma BatchLeavesAtMostOneActive(hrefs: seq<string>, active: seq<bool>, entries: seq<Entry>)
    requires |active| == |hrefs|
    requires exists k :: 0 <= k < |entries| && entries[k].isIntersecting
    ensures AtMostOneActive(HandleBatch(hrefs, active, entries))
  {
  }

  /** When the last intersecting section has a link, exactly that link is
      active, however many sections intersected in the same batch. */
  lemma {:induction false} BatchLastWins(hrefs: seq<string>, active: seq<bool>, entries: seq<Entry>, k: nat)
    requires |active| == |hrefs|
    requires k < |entries| && entries[k].isIntersecting
    requires forall m :: k < m < |entries| ==> !entries[m].isIntersecting
    requires Href(entries[k].targetId) in hrefs
    ensures exists i :: 0 <= i < |hrefs| && hrefs[i] == Href(entries[k].targetId)
              && HandleBatch(hrefs, active, entries)[i]
    ensures AtMostOneActive(HandleBatch(hrefs, active, entries))
  {
    LastIsAt(entries, k);
    var i := FirstLink(hrefs, Href(entries[k].targetId)).value;
    assert HandleBatch(hrefs, active, entries)[i];
  }

  lemma {:induction false} LastIsAt(entries: seq<Entry>, k: nat)
    requires k < |entries| && entries[k].isIntersecting
    requires forall m :: k < m < |entries| ==> !entries[m].isIntersecting
    ensures LastIntersecting(entries) == Some(entries[k])
    decreases k
  {
    if k == 0 {
      assert LastIntersecting(entries[1..]).None?;
    } else {
      LastIsAt(entries[1..], k - 1);
    }
  }

  /** Two callback invocations in a row act like one over both batches. */
  lemma {:induction false} BatchesCompose(hrefs: seq<string>, active: seq<bool>, first: seq<Entry>, second: seq<Entry>)
    requires |active| == |hrefs|
    ensures HandleBatch(hrefs, active, first + second)
              == HandleBatch(hrefs, HandleBatch(hrefs, active, first), second)
    decreases |first|
  {
    if |first| > 0 {
      assert (first + second)[1..] == first[1..] + second;
      BatchesCompose(hrefs, HandleEntry(hrefs, active, first[0]), first[1..], second);
    } else {
      assert first + second == second;
    }
  }
}
