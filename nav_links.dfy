/**
 * `updateActiveNavLink`: on scroll, the navigation link of the section under a probe line
 * 100 pixels below the top of the window is marked active and every other link is cleared.
 */
module NavLinks {

  import opened Optional

  /** A `section[id]` element: its `offsetTop`, `offsetHeight` and `id`. */
  datatype Section = Section(top: int, height: int, id: string)

  /** How far below the window's top edge the probe line sits. */
  const ProbeOffset: int := 100

  /** The probe line `pos` falls within the section's vertical extent. */
  predicate Covers(s: Section, pos: int) {
    s.top <= pos < s.top + s.height
  }

  /** The last section, in document order, that the probe line falls within. */
  function LastCovering(sections: seq<Section>, pos: int): (r: Option<nat>)
    ensures r.Some? ==> r.value < |sections| && Covers(sections[r.value], pos)
    ensures r.Some? ==> forall j :: r.value < j < |sections| ==> !Covers(sections[j], pos)
    ensures r.None? <==> forall j :: 0 <= j < |sections| ==> !Covers(sections[j], pos)
  {
    if sections == [] then None
    else if Covers(sections[|sections| - 1], pos) then Some(|sections| - 1)
    else LastCovering(sections[..|sections| - 1], pos)
  }

  /** Section `i` is the last one, in document order, that the probe line falls within. */
  ghost predicate IsLastCovering(sections: seq<Section>, pos: int, i: int) {
    && 0 <= i < |sections| && Covers(sections[i], pos)
    && forall j :: i < j < |sections| ==> !Covers(sections[j], pos)
  }

  /** Exactly the links pointing at `#id` are active. */
  ghost predicate ShowsOnly(flags: seq<bool>, hrefs: seq<string>, id: string) {
    |flags| == |hrefs| && forall l :: 0 <= l < |flags| ==> flags[l] == (hrefs[l] == "#" + id)
  }

  /** The search finds the one section that is the last to cover the probe line. */
  lemma LastCoveringIsUnique(sections: seq<Section>, pos: int, i: int)
    requires IsLastCovering(sections, pos, i)
    ensures LastCovering(sections, pos) == Some(i)
  {
  }

  /** Looking at one more section: it wins if it covers the probe line. */
  lemma LastCoveringStep(sections: seq<Section>, pos: int, i: nat)
    requires i < |sections|
    ensures LastCovering(sections[..i + 1], pos)
              == if Covers(sections[i], pos) then Some(i) else LastCovering(sections[..i], pos)
  {
    assert sections[..i + 1][..i] == sections[..i];
  }

  /** The inner `forEach` over the links: clear every link's `active` class and set it again
      on the links whose `href` is `#` followed by the section's id. */
  method MarkSection(hrefs: seq<string>, active: array<bool>, id: string)
    requires active.Length == |hrefs|
    modifies active
    ensures ShowsOnly(active[..], hrefs, id)
  {
    var l := 0;
    while l < active.Length
      invariant 0 <= l <= active.Length
      invariant forall m :: 0 <= m < l ==> active[m] == (hrefs[m] == "#" + id)
    {
      active[l] := false;
      if hrefs[l] == "#" + id {
        active[l] := true;
      }
      l := l + 1;
    }
  }

  /** The scroll listener. `hrefs` are the links' `href` attributes and `active` their
      `active` classes, which every covering section in turn rewrites, so the last one wins. */
  method UpdateActiveNavLink(sections: seq<Section>, hrefs: seq<string>, active: array<bool>, scrollY: int)
    requires active.Length == |hrefs|
    modifies active
    ensures (forall i :: 0 <= i < |sections| ==> !Covers(sections[i], scrollY + ProbeOffset))
              ==> active[..] == old(active[..])
    ensures forall i :: IsLastCovering(sections, scrollY + ProbeOffset, i)
              ==> ShowsOnly(active[..], hrefs, sections[i].id)
  {
    var scrollPosition := scrollY + ProbeOffset;
    var i := 0;
    while i < |sections|
      invariant 0 <= i <= |sections|
      invariant LastCovering(sections[..i], scrollPosition).None? ==> active[..] == old(active[..])
      invariant LastCovering(sections[..i], scrollPosition).Some? ==>
                  ShowsOnly(active[..], hrefs, sections[LastCovering(sections[..i], scrollPosition).value].id)
    {
      LastCoveringStep(sections, scrollPosition, i);
      if Covers(sections[i], scrollPosition) {
        MarkSection(hrefs, active, sections[i].id);
      }
      i := i + 1;
    }
    assert sections[..i] == sections;
    forall k | IsLastCovering(sections, scrollPosition, k)
      ensures ShowsOnly(active[..], hrefs, sections[k].id)
    {
      LastCoveringIsUnique(sections, scrollPosition, k);
    }
  }
}
