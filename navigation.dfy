/** Scroll-driven highlighting of the navigation link of the current section
    (script.js:122-144). Offsets and heights are whole pixels. */
module Navigation {
  import opened Seqs

  /** A `section[id]` element: its id, its offset from the top of the
      document, and its height. */
  datatype Section = Section(id: string, top: int, height: int)

  /** A section counts as current this many pixels (plus the navbar height)
      before its top reaches the top of the window. */
  const LeadIn := 100

  /** Whether scroll offset y lies in the section's band
      [top - navbarHeight - 100, top - navbarHeight - 100 + height). */
  predicate InBand(s: Section, navbarHeight: int, y: int)
  {
    var bandTop := s.top - navbarHeight - LeadIn;
    bandTop <= y < bandTop + s.height
  }

  /** The position of the last section, in document order, whose band holds
      y, or -1 when none does. */
  function LastInBand(sections: seq<Section>, navbarHeight: int, y: int): (r: int)
    ensures -1 <= r < |sections|
    ensures r >= 0 ==> InBand(sections[r], navbarHeight, y)
    ensures forall j :: r < j < |sections| ==> !InBand(sections[j], navbarHeight, y)
  {
    if sections == [] then -1
    else if InBand(sections[|sections| - 1], navbarHeight, y) then |sections| - 1
    else LastInBand(sections[..|sections| - 1], navbarHeight, y)
  }

  /** The id of the current section, or the empty string when no band holds
      the scroll offset. */
  function CurrentSectionId(sections: seq<Section>, navbarHeight: int, y: int): (id: string)
    ensures id != "" ==> exists j :: 0 <= j < |sections| && InBand(sections[j], navbarHeight, y) && sections[j].id == id
    ensures (forall j :: 0 <= j < |sections| ==> !InBand(sections[j], navbarHeight, y)) ==> id == ""
  {
    var k := LastInBand(sections, navbarHeight, y);
    if k < 0 then "" else sections[k].id
  }

  /** The "active" flags the links end with: exactly those whose href is
      '#' followed by the current section's id. */
  function LinkFlags(hrefs: seq<string>, current: string): (flags: seq<bool>)
    ensures |flags| == |hrefs|
  {
    seq(|hrefs|, i requires 0 <= i < |hrefs| => hrefs[i] == "#" + current)
  }

  /** With distinct hrefs, at most one link is active; exactly one when some
      link points at the current section. */
  lemma {:induction false} AtMostOneLinkActive(hrefs: seq<string>, current: string)
    requires forall i, j :: 0 <= i < j < |hrefs| ==> hrefs[i] != hrefs[j]
    ensures CountTrue(LinkFlags(hrefs, current)) <= 1
    ensures CountTrue(LinkFlags(hrefs, current)) == 1 <==> "#" + current in hrefs
  {
    var k := IndexOf(hrefs, "#" + current);
    var flags := LinkFlags(hrefs, current);
    assert ClearExcept(flags, k);
    CountTrueAtMostOne(flags, k);
  }

  /** When no section is current, the search target is the bare "#", so a
      link whose href is exactly "#" is the one left active. */
  lemma NoCurrentSection(sections: seq<Section>, navbarHeight: int, y: int, hrefs: seq<string>)
    requires forall j :: 0 <= j < |sections| ==> !InBand(sections[j], navbarHeight, y)
    ensures CurrentSectionId(sections, navbarHeight, y) == ""
    ensures forall i :: 0 <= i < |hrefs| ==>
      LinkFlags(hrefs, CurrentSectionId(sections, navbarHeight, y))[i] == (hrefs[i] == "#")
  {
  }

  /** updateActiveNavLink: scan the sections in document order, keeping the
      id of the latest one whose band holds the scroll offset; then clear every
      link and mark those pointing at that section. */
  method UpdateActiveNavLink(sections: seq<Section>, navbarHeight: int, y: int,
                             hrefs: seq<string>, linkActive: array<bool>)
      returns (current: string)
    requires linkActive.Length == |hrefs|
    modifies linkActive
    ensures current == CurrentSectionId(sections, navbarHeight, y)
    ensures linkActive[..] == LinkFlags(hrefs, current)
  {
    current := "";
    var i := 0;
    while i < |sections|
      invariant 0 <= i <= |sections|
      invariant current == CurrentSectionId(sections[..i], navbarHeight, y)
    {
      assert sections[..i + 1][..i] == sections[..i];
      if InBand(sections[i], navbarHeight, y) {
        current := sections[i].id;
      }
      i := i + 1;
    }
    assert sections[..i] == sections;
    var j := 0;
    while j < linkActive.Length
      invariant 0 <= j <= linkActive.Length
      invariant forall m :: 0 <= m < j ==> linkActive[m] == (hrefs[m] == "#" + current)
    {
      linkActive[j] := false;
      if hrefs[j] == "#" + current {
        linkActive[j] := true;
      }
      j := j + 1;
    }
  }
}
