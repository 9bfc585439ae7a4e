/**
 * Active-link highlighting: the navigation link pointing at the section
 * under the probe point (150 pixels below the scroll position) is marked active.
 */
module Navigation {
  import opened Wrappers

  /** A page section's layout box and its `id` attribute (absent ids are allowed). */
  datatype Section = Section(top: real, height: real, id: Option<string>)

  /** A navigation link's `href` attribute and whether it carries the `active` class. */
  datatype NavLink = NavLink(href: Option<string>, active: bool)

  /** How far below the scroll position the probe point sits. */
  const ProbeOffset: real := 150.0

  /** The half-open vertical interval [top, top + height) of the section contains the point. */
  predicate Contains(s: Section, p: real) {
    s.top <= p < s.top + s.height
  }

  /** The href a link needs to match the section: "#" followed by the id, which reads "null" when absent. */
  function HrefOf(s: Section): (h: string)
    ensures |h| > 0 && h[0] == '#'
    ensures s.id.Some? ==> h[1..] == s.id.value
    ensures s.id.None? ==> h == "#null"
  {
    match s.id
    case Some(id) => "#" + id
    case None => "#null"
  }

  /** Sections with different ids are matched by different hrefs. */
  lemma HrefOfDistinct(a: Section, b: Section)
    requires a.id.Some? && b.id.Some? && a.id != b.id
    ensures HrefOf(a) != HrefOf(b)
  {
    assert HrefOf(a)[1..] == a.id.value;
  }

  /** A section without an id and a section whose id is "null" are matched by the same href. */
  lemma HrefOfNullClash(a: Section, b: Section)
    requires a.id == None && b.id == Some("null")
    ensures HrefOf(a) == HrefOf(b)
  {
  }

  /** The interval is half-open: a section of positive height contains its top and never its bottom edge, and a section directly below another shares no point with it. */
  lemma ContainsHalfOpen(s: Section, next: Section, p: real)
    requires next.top == s.top + s.height
    ensures Contains(s, s.top) <==> s.height > 0.0
    ensures !Contains(s, s.top + s.height)
    ensures !(Contains(s, p) && Contains(next, p))
  {
  }

  /** The index of the last section containing the point, if any. */
  function LastContaining(sections: seq<Section>, p: real): (k: Option<nat>)
    ensures k.Some? ==> k.value < |sections| && Contains(sections[k.value], p)
    ensures k.Some? ==> forall j :: k.value < j < |sections| ==> !Contains(sections[j], p)
    ensures k.None? <==> forall j :: 0 <= j < |sections| ==> !Contains(sections[j], p)
    decreases |sections|
  {
    if sections == [] then None
    else if Contains(sections[|sections| - 1], p) then Some(|sections| - 1)
    else LastContaining(sections[..|sections| - 1], p)
  }

  /** One inner pass: every link loses `active`, then the links whose href equals the target regain it. */
  function Highlight(links: seq<NavLink>, target: string): (r: seq<NavLink>)
    ensures |r| == |links|
    ensures forall j :: 0 <= j < |links| ==>
      r[j].href == links[j].href && (r[j].active <==> links[j].href == Some(target))
  {
    seq(|links|, j requires 0 <= j < |links| => links[j].(active := links[j].href == Some(target)))
  }

  /** The links after one update: highlighted for the last containing section, untouched when none contains the point. */
  function ActiveAfter(links: seq<NavLink>, sections: seq<Section>, p: real): (r: seq<NavLink>)
    ensures |r| == |links|
    ensures forall j :: 0 <= j < |links| ==> r[j].href == links[j].href
    ensures (forall i :: 0 <= i < |sections| ==> !Contains(sections[i], p)) ==> r == links
  {
    match LastContaining(sections, p)
    case None => links
    case Some(k) => Highlight(links, HrefOf(sections[k]))
  }

  /** After an update the hrefs are unchanged and, if some section contains the point, exactly the links matching its href are active. */
  lemma ActiveAfterSpec(links: seq<NavLink>, sections: seq<Section>, p: real, j: nat)
    requires j < |links|
    ensures ActiveAfter(links, sections, p)[j].href == links[j].href
    ensures LastContaining(sections, p).None? ==> ActiveAfter(links, sections, p)[j] == links[j]
    ensures LastContaining(sections, p).Some? ==>
      (ActiveAfter(links, sections, p)[j].active <==>
         links[j].href == Some(HrefOf(sections[LastContaining(sections, p).value])))
  {
  }

  /** A later highlight overrides an earlier one entirely. */
  lemma HighlightOverrides(links: seq<NavLink>, first: string, second: string)
    ensures Highlight(Highlight(links, first), second) == Highlight(links, second)
  {
  }

  /** With pairwise distinct hrefs, a highlight leaves at most one link active, and exactly one when some link matches the target. */
  lemma HighlightUnique(links: seq<NavLink>, target: string)
    requires forall a, b :: 0 <= a < b < |links| && links[a].href.Some? ==> links[a].href != links[b].href
    ensures forall i, j :: 0 <= i < j < |links| ==> !(Highlight(links, target)[i].active && Highlight(links, target)[j].active)
    ensures (exists i :: 0 <= i < |links| && links[i].href == Some(target)) ==>
      exists i :: 0 <= i < |links| && Highlight(links, target)[i].active
  {
    if i :| 0 <= i < |links| && links[i].href == Some(target) {
      assert Highlight(links, target)[i].active;
    }
  }

  /** Extending the scanned prefix by one section: a containing section re-highlights, any other leaves the links as they were. */
  lemma {:induction false} ActiveAfterStep(links: seq<NavLink>, sections: seq<Section>, p: real, i: nat)
    requires i < |sections|
    ensures ActiveAfter(links, sections[..i + 1], p) ==
      if Contains(sections[i], p)
      then Highlight(ActiveAfter(links, sections[..i], p), HrefOf(sections[i]))
      else ActiveAfter(links, sections[..i], p)
  {
    var prefix := sections[..i + 1];
    assert prefix[..i] == sections[..i];
    if Contains(sections[i], p) {
      match LastContaining(sections[..i], p)
      case None =>
      case Some(k) => HighlightOverrides(links, HrefOf(sections[k]), HrefOf(sections[i]));
    }
  }

  class NavigationActive {
    const links: array<NavLink>

    /** Builds the controller and runs one update for the initial scroll position. */
    constructor (links: array<NavLink>, sections: seq<Section>, scrollY: real)
      modifies links
      ensures this.links == links
      ensures links[..] == ActiveAfter(old(links[..]), sections, scrollY + ProbeOffset)
    {
      this.links := links;
      new;
      UpdateActiveLink(sections, scrollY);
    }

    /** The scroll handler: for each section in order that contains the probe point, re-highlight the links. */
    method UpdateActiveLink(sections: seq<Section>, scrollY: real)
      modifies links
      ensures links[..] == ActiveAfter(old(links[..]), sections, scrollY + ProbeOffset)
    {
      var p := scrollY + ProbeOffset;
      var i := 0;
      while i < |sections|
        invariant 0 <= i <= |sections|
        invariant links[..] == ActiveAfter(old(links[..]), sections[..i], p)
      {
        ActiveAfterStep(old(links[..]), sections, p, i);
        if Contains(sections[i], p) {
          var target := HrefOf(sections[i]);
          ghost var before := links[..];
          var j := 0;
          while j < links.Length
            invariant 0 <= j <= links.Length
            invariant forall m :: 0 <= m < j ==> links[m] == before[m].(active := before[m].href == Some(target))
            invariant forall m :: j <= m < links.Length ==> links[m] == before[m]
          {
            links[j] := links[j].(active := false);
            if links[j].href == Some(target) {
              links[j] := links[j].(active := true);
            }
            j := j + 1;
          }
          assert links[..] == Highlight(before, target);
        }
        i := i + 1;
      }
      assert sections[..|sections|] == sections;
    }
  }
}
