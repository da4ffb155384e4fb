/** What is left of the evidence an answer cites, said of the items themselves. */
module EvidenceFacts {
  import opened Guardrails
  import Picking

  /** The 29 characters that `str.strip` removes. */
  lemma {:induction false} SpacesAre(c: char)
    ensures IsSpace(c) <==> c in {
      '\U{0009}', '\U{000a}', '\U{000b}', '\U{000c}', '\U{000d}', '\U{001c}', '\U{001d}', '\U{001e}', '\U{001f}',
      '\U{0020}', '\U{0085}', '\U{00a0}', '\U{1680}', '\U{2000}', '\U{2001}', '\U{2002}', '\U{2003}', '\U{2004}',
      '\U{2005}', '\U{2006}', '\U{2007}', '\U{2008}', '\U{2009}', '\U{200a}', '\U{2028}', '\U{2029}', '\U{202f}',
      '\U{205f}', '\U{3000}'}
  {
    if '\U{2000}' <= c <= '\U{200a}' { var n := c as int - 0x2000; assert 0 <= n <= 10; }
  }

  lemma {:induction false} LeftStripped(s: string) returns (left: string)
    ensures s == left + StripLeft(s) && Blank(left)
    ensures StripLeft(s) != "" ==> !IsSpace(StripLeft(s)[0])
  {
    left := "";
    if s != "" && IsSpace(s[0]) {
      var rest := LeftStripped(s[1..]);
      left := [s[0]] + rest;
      assert s == [s[0]] + s[1..];
    }
  }

  lemma {:induction false} RightStripped(s: string) returns (right: string)
    ensures s == StripRight(s) + right && Blank(right)
    ensures StripRight(s) != "" ==> !IsSpace(StripRight(s)[|StripRight(s)| - 1])
    ensures StripRight(s) != "" ==> StripRight(s)[0] == s[0]
  {
    right := "";
    if s != "" && IsSpace(s[|s| - 1]) {
      var rest := RightStripped(s[..|s| - 1]);
      right := rest + [s[|s| - 1]];
      assert s == s[..|s| - 1] + [s[|s| - 1]];
    }
  }

  /** Stripping takes the blanks off both ends and nothing else. */
  lemma {:induction false} StripBoth(s: string) returns (left: string, right: string)
    ensures s == left + Strip(s) + right && Blank(left) && Blank(right)
    ensures Strip(s) != "" ==> !IsSpace(Strip(s)[0]) && !IsSpace(Strip(s)[|Strip(s)| - 1])
  {
    left := LeftStripped(s);
    right := RightStripped(StripLeft(s));
    assert left + (Strip(s) + right) == left + Strip(s) + right;
  }

  predicate Cited(item: string) { exists i :: 0 <= i < |item| && !IsSpace(item[i]) }

  /** The first 300 characters of the stripped item. */
  function Kept(item: string): string {
    var text := Strip(item);
    if |text| < 300 then text else text[..300]
  }

  ghost predicate KeptFrom(items: seq<string>, evidence: seq<string>) {
    exists picked: seq<string> :: Picking.Picked(items, picked, Cited) && KeptEach(picked, evidence)
  }

  ghost predicate KeptEach(picked: seq<string>, evidence: seq<string>) {
    && |evidence| == (if |picked| < 6 then |picked| else 6)
    && forall i :: 0 <= i < |evidence| ==> evidence[i] == Kept(picked[i])
  }

  ghost predicate VisibleFrom(items: seq<string>, visible: seq<string>) {
    exists picked: seq<string> :: Picking.Picked(items, picked, Cited) && MapsTo(picked, visible)
  }

  ghost predicate MapsTo(picked: seq<string>, visible: seq<string>) {
    |visible| == |picked| && forall i :: 0 <= i < |visible| ==> visible[i] == Kept(picked[i])
  }

  lemma {:induction false} KeptIs(item: string)
    ensures Cited(item) <==> Strip(item) != ""
    ensures Clip(Strip(item)) == Kept(item)
  {
    StripIs(item);
    if |Strip(item)| == 300 { assert Strip(item)[..300] == Strip(item); }
  }

  lemma {:induction false} VisibleStep(first: string, rest: seq<string>)
    requires VisibleFrom(rest, Visible(rest))
    ensures VisibleFrom([first] + rest, if Cited(first) then [Kept(first)] + Visible(rest) else Visible(rest))
  {
    var picked: seq<string> :| Picking.Picked(rest, picked, Cited) && MapsTo(picked, Visible(rest));
    Picking.PickedCons(first, rest, picked, Cited);
    if Cited(first) { assert MapsTo([first] + picked, [Kept(first)] + Visible(rest)); }
  }

  /** The visible items come from the items. */
  ghost predicate VisibleOf(items: seq<string>) { VisibleFrom(items, Visible(items)) }

  lemma {:induction false} VisibleNone()
    ensures VisibleOf([])
  {
    Picking.PickedNone(Cited);
    assert MapsTo([], Visible([]));
  }

  lemma {:induction false} VisibleRest(first: string, rest: seq<string>, items: seq<string>)
    requires items == [first] + rest
    ensures Visible(items) == if Cited(first) then [Kept(first)] + Visible(rest) else Visible(rest)
  {
    KeptIs(first);
    assert items[1..] == rest && items[0] == first;
  }

  lemma {:induction false} VisibleCons(first: string, rest: seq<string>, items: seq<string>)
    requires items == [first] + rest && VisibleOf(rest)
    ensures VisibleOf(items)
  {
    VisibleStep(first, rest);
    VisibleRest(first, rest, items);
  }

  lemma {:induction false} VisibleIs(items: seq<string>)
    ensures VisibleOf(items)
  {
    if items == [] {
      VisibleNone();
    } else {
      VisibleIs(items[1..]);
      VisibleCons(items[0], items[1..], items);
    }
  }

  lemma {:induction false} FirstSix(picked: seq<string>, visible: seq<string>)
    requires MapsTo(picked, visible)
    ensures KeptEach(picked, if |visible| <= MAX_EVIDENCE_ITEMS then visible else visible[..MAX_EVIDENCE_ITEMS])
  {
  }

  /** The evidence kept is that of the first six items with something visible, in their order, each stripped and cut to
      300 characters. */
  lemma {:induction false} EvidenceIs(items: seq<string>)
    ensures KeptFrom(items, Cleaned(items))
  {
    VisibleIs(items);
    var picked: seq<string> :| Picking.Picked(items, picked, Cited) && MapsTo(picked, Visible(items));
    FirstSix(picked, Visible(items));
  }
}
