/** The certification info panels (script.js:467-482): opening one panel
    closes the others, and clicking an open panel's button closes it. */
module Certifications {
  import opened Seqs

  /** The element id of the panel for a certification. */
  function PanelId(certId: string): string
  {
    "cert-" + certId
  }

  /** The panels' "active" flags after toggleCertInfo with target id t:
      every panel whose id differs from t is cleared; the first element with
      id t (the one document.getElementById returns) is flipped; a later
      panel with the same id keeps its flag. */
  function Toggled(flags: seq<bool>, ids: seq<string>, t: string): (r: seq<bool>)
    requires |flags| == |ids|
    ensures |r| == |flags|
  {
    var k := IndexOf(ids, t);
    seq(|flags|, i requires 0 <= i < |flags| =>
      if ids[i] != t then false else if i == k then !flags[i] else flags[i])
  }

  /** With unique ids, at most one panel is open afterwards: the target, and
      only if it was closed before. */
  lemma AtMostOnePanelOpen(flags: seq<bool>, ids: seq<string>, t: string)
    requires |flags| == |ids|
    requires forall i, j :: 0 <= i < j < |ids| ==> ids[i] != ids[j]
    ensures CountTrue(Toggled(flags, ids, t)) <= 1
    ensures CountTrue(Toggled(flags, ids, t)) == 1 <==> t in ids && !flags[IndexOf(ids, t)]
  {
    var k := IndexOf(ids, t);
    CountTrueAtMostOne(Toggled(flags, ids, t), k);
  }

  /** Toggling the same panel twice restores its flag, and leaves every
      panel with another id closed. */
  lemma ToggleTwice(flags: seq<bool>, ids: seq<string>, t: string)
    requires |flags| == |ids|
    ensures var twice := Toggled(Toggled(flags, ids, t), ids, t);
      && (t in ids ==> twice[IndexOf(ids, t)] == flags[IndexOf(ids, t)])
      && forall i :: 0 <= i < |ids| && ids[i] != t ==> !twice[i]
  {
  }

  /** A certification without a panel closes every panel and opens none. */
  lemma UnknownTargetClosesAll(flags: seq<bool>, ids: seq<string>, t: string)
    requires |flags| == |ids| && t !in ids
    ensures CountTrue(Toggled(flags, ids, t)) == 0
  {
    CountTrueAtMostOne(Toggled(flags, ids, t), -1);
  }

  /** toggleCertInfo(certId) over the panels' ids and "active" flags. */
  method ToggleCertInfo(certId: string, ids: seq<string>, active: array<bool>)
    requires active.Length == |ids|
    modifies active
    ensures active[..] == Toggled(old(active[..]), ids, PanelId(certId))
  {
    var t := PanelId(certId);
    var i := 0;
    while i < active.Length
      invariant 0 <= i <= active.Length
      invariant forall j :: 0 <= j < i ==> active[j] == (ids[j] == t && old(active[j]))
      invariant forall j :: i <= j < active.Length ==> active[j] == old(active[j])
    {
      if ids[i] != t {
        active[i] := false;
      }
      i := i + 1;
    }
    var k := IndexOf(ids, t);
    if k < active.Length {
      active[k] := !active[k];
    }
  }
}
