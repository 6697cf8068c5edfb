/** bc250-vitals: the feature word written out as a string into a caller's buffer. */
module Vitals {
  import opened Common
  import opened Masks

  datatype Feature = Feature(bit: nat, name: string)

  const FEATURES: seq<Feature> := [
    Feature(0, "GFXCLK_DPM"), Feature(2, "GFXOFF"), Feature(3, "CLOCK_GATING"),
    Feature(4, "POWER_GATING"), Feature(6, "GFX_WGP_POWER")]

  const NONE_SET := "(none set)"

  /** f & (1u << bit) */
  predicate IsSet(f: Word, bit: nat) {
    Pow2Positive(bit);
    f / Pow2(bit) % 2 == 1
  }

  lemma {:induction false} Pow2Positive(n: nat)
    ensures Pow2(n) > 0
  {
    if n > 0 {
      Pow2Positive(n - 1);
    }
  }

  /** The names of the set bits, in the order of the table. */
  function Names(f: Word, tab: seq<Feature>): seq<string> {
    if tab == [] then []
    else
      var e := tab[|tab| - 1];
      Names(f, tab[..|tab| - 1]) + if IsSet(f, e.bit) then [e.name] else []
  }

  /** With '|' between the names. */
  function Join(names: seq<string>): string {
    if names == [] then ""
    else (if |names| == 1 then "" else Join(names[..|names| - 1]) + "|") + names[|names| - 1]
  }

  /** The test in the loop asks for one character more than the string and its NUL need. */
  predicate Fits(names: seq<string>, n: nat) {
    |Join(names)| + 2 <= n
  }

  /** The longest prefix that fits. */
  function Shown(names: seq<string>, n: nat): seq<string> {
    if names == [] || Fits(names, n) then names else Shown(names[..|names| - 1], n)
  }

  function Cut(s: string, n: nat): string
    requires n > 0
  {
    if |s| >= n then s[..n - 1] else s
  }

  function Text(f: Word, n: nat): string
    requires n > 0
  {
    var shown := Shown(Names(f, FEATURES), n);
    if shown == [] then Cut(NONE_SET, n) else Join(shown)
  }

  // ---- the greedy loop finds the longest prefix ----------------------------------

  lemma JoinSnoc(names: seq<string>, name: string)
    ensures Join(names + [name]) == (if names == [] then "" else Join(names) + "|") + name
  {
    assert (names + [name])[..|names|] == names;
  }

  /** Once a prefix does not fit, no longer one does. */
  lemma {:induction false} GreedyIsLongest(names: seq<string>, rest: seq<string>, n: nat)
    requires names == [] || Fits(names, n)
    requires rest != [] ==> !Fits(names + rest[..1], n)
    ensures Shown(names + rest, n) == names
    ensures rest != [] ==> !Fits(names + rest, n)
    decreases |rest|
  {
    if rest == [] {
      assert names + rest == names;
    } else {
      var front, all := rest[..|rest| - 1], names + rest;
      assert all[..|all| - 1] == names + front;
      assert all == (names + front) + [rest[|rest| - 1]];
      JoinSnoc(names + front, rest[|rest| - 1]);
      if front != [] {
        assert front[..1] == rest[..1];
        GreedyIsLongest(names, front, n);
      } else {
        assert names + front == names && rest[..1] == rest;
      }
    }
  }

  lemma {:induction false} NamesGrow(f: Word, tab: seq<Feature>, i: nat)
    requires i <= |tab|
    ensures Names(f, tab[..i]) <= Names(f, tab)
    decreases |tab|
  {
    if i < |tab| {
      var front := tab[..|tab| - 1];
      assert front[..i] == tab[..i];
      NamesGrow(f, front, i);
    } else {
      assert tab[..i] == tab;
    }
  }

  /** What the loop knows when it stops at entry `i` of the table. */
  ghost predicate Longest(names: seq<string>, all: seq<string>, n: nat) {
    && names <= all
    && (names == [] || Fits(names, n))
    && (names != all ==> !Fits(all[..|names| + 1], n))
  }

  lemma NothingYet(f: Word, tab: seq<Feature>)
    ensures Names(f, tab[..0]) == [] && Join([]) == ""
  {
  }

  lemma NamesStep(f: Word, tab: seq<Feature>, i: nat)
    requires i < |tab|
    ensures Names(f, tab[..i + 1]) == Names(f, tab[..i]) + if IsSet(f, tab[i].bit) then [tab[i].name] else []
  {
    assert tab[..i + 1][..i] == tab[..i];
  }

  lemma NextDoesNotFit(f: Word, tab: seq<Feature>, i: nat, n: nat)
    requires i < |tab| && IsSet(f, tab[i].bit)
    requires var names := Names(f, tab[..i]);
      && (names == [] || Fits(names, n))
      && |Join(names)| + (if names == [] then 0 else 1) + |tab[i].name| + 1 >= n
    ensures Longest(Names(f, tab[..i]), Names(f, tab), n)
  {
    hide Names, Join, IsSet;
    var names, all := Names(f, tab[..i]), Names(f, tab);
    NothingYet(f, tab);
    NamesStep(f, tab, i);
    NamesGrow(f, tab, i);
    NamesGrow(f, tab, i + 1);
    JoinSnoc(names, tab[i].name);
    assert all[..|names| + 1] == names + [tab[i].name];
  }

  lemma LongestIsShown(names: seq<string>, all: seq<string>, n: nat)
    requires Longest(names, all, n)
    ensures Shown(all, n) == names
  {
    var rest := all[|names|..];
    assert all == names + rest;
    if rest != [] {
      assert names + rest[..1] == all[..|names| + 1];
    }
    GreedyIsLongest(names, rest, n);
  }

  lemma {:induction false} ShownFits(names: seq<string>, n: nat)
    ensures Shown(names, n) == [] || Fits(Shown(names, n), n)
    ensures |Shown(names, n)| <= |names| && Shown(names, n) == names[..|Shown(names, n)|]
  {
    if names != [] && !Fits(names, n) {
      ShownFits(names[..|names| - 1], n);
    }
  }

  ghost predicate Printable(names: seq<string>) {
    forall i :: 0 <= i < |names| ==> names[i] != "" && '\0' !in names[i]
  }

  lemma {:induction false} JoinPrintable(names: seq<string>)
    requires Printable(names)
    ensures '\0' !in Join(names)
    ensures names != [] ==> Join(names) != "" && Join(names)[0] == names[0][0]
  {
    if |names| > 1 {
      JoinPrintable(names[..|names| - 1]);
    }
  }

  lemma {:induction false} NamesAreListed(f: Word, tab: seq<Feature>)
    ensures forall s :: s in Names(f, tab) ==> exists e :: e in tab && e.name == s && IsSet(f, e.bit)
    ensures forall e :: e in tab && IsSet(f, e.bit) ==> e.name in Names(f, tab)
  {
    if tab != [] {
      NamesAreListed(f, tab[..|tab| - 1]);
    }
  }

  /** Table entries have names, without '|' and NUL, and start with a letter. */
  ghost predicate WellNamed(tab: seq<Feature>) {
    forall i :: 0 <= i < |tab| ==> NameOk(tab[i].name)
  }

  predicate NameOk(name: string) {
    name != "" && '\0' !in name && '|' !in name && name[0] != '('
  }

  lemma NamesPrintable(f: Word, tab: seq<Feature>)
    requires WellNamed(tab)
    ensures Printable(Names(f, tab))
  {
    NamesAreListed(f, tab);
    var names := Names(f, tab);
    forall i | 0 <= i < |names| ensures names[i] != "" && '\0' !in names[i] {
      assert names[i] in names;
    }
  }

  lemma NamesOk()
    ensures NameOk("GFXCLK_DPM") && NameOk("GFXOFF") && NameOk("CLOCK_GATING")
    ensures NameOk("POWER_GATING") && NameOk("GFX_WGP_POWER")
  {
  }

  lemma FeaturesWellNamed()
    ensures WellNamed(FEATURES)
  {
    hide NameOk;
    NamesOk();
  }

  // ---- the tool ------------------------------------------------------------------

  method CopyInto(out: array<char>, at: nat, s: string)
    requires at + |s| <= out.Length
    modifies out
    ensures out[..] == old(out[..at]) + s + old(out[at + |s|..])
  {
    forall k | 0 <= k < |s| {
      out[at + k] := s[k];
    }
  }

  /** `s` as a C string at the start of the buffer, everything from `n` on untouched. */
  twostate predicate Holds(out: array<char>, n: nat, s: string)
    reads out
  {
    && |s| < n <= out.Length
    && out[..|s|] == s && out[|s|] == '\0'
    && out[n..] == old(out[n..])
  }

  method SetStr(out: array<char>, n: nat, s: string)
    requires n <= out.Length
    modifies out
    ensures if n == 0 then out[..] == old(out[..]) else Holds(out, n, Cut(s, n))
  {
    var l := |s|;
    if n == 0 { return; }
    if l >= n { l := n - 1; }
    CopyInto(out, 0, s[..l]);
    assert out[..l] == s[..l];
    out[l] := '\0';
  }

  method AppendName(out: array<char>, used: nat, name: string) returns (end: nat)
    requires used + 1 + |name| < out.Length
    modifies out
    ensures end == used + (if used == 0 then 0 else 1) + |name|
    ensures out[..end] == old(out[..used]) + (if used == 0 then "" else "|") + name
    ensures out[end] == '\0' && out[end + 1..] == old(out[end + 1..])
  {
    end := used;
    if used != 0 {
      out[end] := '|';
      end := end + 1;
    }
    assert out[..end] == old(out[..used]) + (if used == 0 then "" else "|");
    CopyInto(out, end, name);
    end := end + |name|;
    assert out[..end] == old(out[..used]) + (if used == 0 then "" else "|") + name;
    out[end] := '\0';
  }

  /** The loop over the table. */
  method WriteNames(f: Word, tab: seq<Feature>, out: array<char>, n: nat) returns (ghost names: seq<string>)
    requires 0 < n <= out.Length && WellNamed(tab)
    modifies out
    ensures Longest(names, Names(f, tab), n) && Printable(names)
    ensures Holds(out, n, Join(names))
  {
    hide Join, IsSet, NameOk;
    out[0] := '\0';
    var used, i := 0, 0;
    names := [];
    NothingYet(f, tab);
    while i < |tab|
      invariant 0 <= i <= |tab|
      invariant names == Names(f, tab[..i]) && (names == [] || Fits(names, n))
      invariant used == |Join(names)| < n && out[..used] == Join(names) && out[used] == '\0'
      invariant Printable(names) && (used == 0 <==> names == [])
      invariant out[n..] == old(out[n..])
    {
      label Turn:
      var name := tab[i].name;
      NamesStep(f, tab, i);
      NamesPrintable(f, tab[..i + 1]);
      if IsSet(f, tab[i].bit) {
        if used + (if used != 0 then 1 else 0) + |name| + 1 >= n {
          NextDoesNotFit(f, tab, i, n);
          return;
        }
        JoinSnoc(names, name);
        JoinPrintable(names + [name]);
        used := AppendName(out, used, name);
        assert out[n..] == old@Turn(out[n..]) by {
          Later(out[used + 1..], old@Turn(out[used + 1..]), n - used - 1);
          assert out[n..] == out[used + 1..][n - used - 1..];
        }
        names := names + [name];
      }
      i := i + 1;
    }
    assert tab[..i] == tab;
  }

  lemma Later(s: string, t: string, k: nat)
    requires s == t && k <= |s|
    ensures s[k..] == t[k..]
  {
  }

  /** Nothing from `n` on is written; with room for at least the NUL the buffer holds the
      text as a terminated string. */
  method DecodeFeatures(f: Word, out: array<char>, n: nat)
    requires n <= out.Length
    modifies out
    ensures if n == 0 then out[..] == old(out[..]) else Holds(out, n, Text(f, n))
  {
    hide Names, Join, Shown, IsSet, NameOk;
    if n == 0 { return; }
    FeaturesWellNamed();
    ghost var names := WriteNames(f, FEATURES, out, n);
    LongestIsShown(names, Names(f, FEATURES), n);
    JoinPrintable(names);
    NothingYet(f, FEATURES);
    if out[0] == '\0' {
      SetStr(out, n, NONE_SET);
    }
  }

  // ---- what the text tells -------------------------------------------------------

  ghost predicate NoneKnown(f: Word) {
    forall e :: e in FEATURES ==> !IsSet(f, e.bit)
  }

  const SHORTEST_FULL: nat := 15

  lemma {:induction false} NoNamesIff(f: Word, tab: seq<Feature>)
    ensures Names(f, tab) == [] <==> forall e :: e in tab ==> !IsSet(f, e.bit)
  {
    NamesAreListed(f, tab);
    if Names(f, tab) != [] {
      assert Names(f, tab)[0] in Names(f, tab);
    }
  }

  ghost predicate NoLonger(tab: seq<Feature>, room: nat) {
    forall e :: e in tab ==> |e.name| <= room
  }

  /** With room for every single name, no text of a name list is the placeholder. */
  lemma {:induction false} SomeNameShown(f: Word, tab: seq<Feature>, n: nat)
    requires WellNamed(tab) && n >= 2 && NoLonger(tab, n - 2) && Names(f, tab) != []
    ensures Shown(Names(f, tab), n) != [] && Join(Shown(Names(f, tab), n)) != NONE_SET
  {
    var names := Names(f, tab);
    NamesAreListed(f, tab);
    assert names[0] in names && NameOk(names[0]);
    FirstShown(names, n);
    var shown := Shown(names, n);
    NamesPrintable(f, tab);
    ShownFits(names, n);
    JoinPrintable(shown);
  }

  lemma {:induction false} FirstShown(names: seq<string>, n: nat)
    requires names != [] && |names[0]| + 2 <= n
    ensures Shown(names, n) != []
  {
    if |names| > 1 {
      FirstShown(names[..|names| - 1], n);
    }
  }

  lemma LongestName()
    ensures NoLonger(FEATURES, SHORTEST_FULL - 2)
  {
  }

  lemma NoneSetFrom15(f: Word, n: nat)
    requires n >= SHORTEST_FULL
    ensures Text(f, n) == NONE_SET <==> NoneKnown(f)
  {
    hide Names, Join, Shown, IsSet, NameOk;
    NoNamesIff(f, FEATURES);
    if Names(f, FEATURES) != [] {
      FeaturesWellNamed();
      LongestName();
      SomeNameShown(f, FEATURES, n);
    } else {
      NothingShown(n);
    }
  }

  lemma NothingShown(n: nat)
    ensures Shown([], n) == []
  {
  }

  const WGP_ONLY: Word := 64
  const ALL_FIVE: Word := 0x5D
  const FIRST_FOUR: Word := 0x1D

  lemma BitWeights()
    ensures Pow2(0) == 1 && Pow2(2) == 4 && Pow2(3) == 8 && Pow2(4) == 16 && Pow2(6) == 64
  {
    assert Pow2(4) == 16;
  }

  /** The names for five given bits, one table entry at a time. */
  lemma NamesOf(f: Word)
    ensures Names(f, FEATURES[..4])
         == (if IsSet(f, 0) then ["GFXCLK_DPM"] else []) + (if IsSet(f, 2) then ["GFXOFF"] else [])
            + (if IsSet(f, 3) then ["CLOCK_GATING"] else []) + (if IsSet(f, 4) then ["POWER_GATING"] else [])
    ensures Names(f, FEATURES) == Names(f, FEATURES[..4]) + if IsSet(f, 6) then ["GFX_WGP_POWER"] else []
  {
    hide IsSet, Names;
    NothingYet(f, FEATURES);
    NamesStep(f, FEATURES, 0);
    NamesStep(f, FEATURES, 1);
    NamesStep(f, FEATURES, 2);
    NamesStep(f, FEATURES, 3);
    NamesStep(f, FEATURES, 4);
    assert FEATURES[..5] == FEATURES;
  }

  lemma WgpNames()
    ensures Names(WGP_ONLY, FEATURES) == ["GFX_WGP_POWER"] && !NoneKnown(WGP_ONLY)
  {
    hide Names;
    BitWeights();
    NamesOf(WGP_ONLY);
    assert FEATURES[4] == Feature(6, "GFX_WGP_POWER") && IsSet(WGP_ONLY, 6);
  }

  ghost predicate PlaceholderMeansNone(n: nat)
    requires n > 0
  {
    forall f: Word :: Text(f, n) == NONE_SET <==> NoneKnown(f)
  }

  /** "(none set)" is shown exactly for the words without a known bit once the buffer has 15
      bytes, and in no smaller one: below 11 it is cut, below 15 a set feature can be left out
      and the placeholder shown instead. */
  lemma PlaceholderIff(n: nat)
    requires n > 0
    ensures PlaceholderMeansNone(n) <==> n >= SHORTEST_FULL
  {
    hide Names, Join, Shown, IsSet, NameOk, NoneKnown;
    if n >= SHORTEST_FULL {
      forall f: Word ensures Text(f, n) == NONE_SET <==> NoneKnown(f) {
        NoneSetFrom15(f, n);
      }
    } else if n >= 11 {
      WgpNames();
      WgpDropped(n);
      assert Text(WGP_ONLY, n) == NONE_SET;
    } else {
      NoNamesIff(0, FEATURES);
      ZeroHasNone();
      NothingShown(n);
      assert |Text(0, n)| < 10;
    }
  }

  lemma WgpDropped(n: nat)
    requires n < SHORTEST_FULL
    ensures Shown(["GFX_WGP_POWER"], n) == []
  {
    assert Join(["GFX_WGP_POWER"]) == "GFX_WGP_POWER";
  }

  lemma ZeroHasNone()
    ensures NoneKnown(0) && forall e :: e in FEATURES ==> !IsSet(0, e.bit)
  {
    hide IsSet;
    forall e | e in FEATURES ensures !IsSet(0, e.bit) {
      ZeroBit(e.bit);
    }
  }

  lemma ZeroBit(bit: nat)
    ensures !IsSet(0, bit)
  {
    Pow2Positive(bit);
  }

  // ---- the tool's own buffer -----------------------------------------------------

  /** The room a table takes when every name is shown, a separator or the end after each. */
  function Room(tab: seq<Feature>): nat {
    if tab == [] then 0 else Room(tab[..|tab| - 1]) + |tab[|tab| - 1].name| + 1
  }

  lemma {:induction false} JoinFitsRoom(f: Word, tab: seq<Feature>)
    ensures Names(f, tab) != [] ==> |Join(Names(f, tab))| + 1 <= Room(tab)
    ensures Names(f, tab) != [] && (forall e :: e in tab ==> IsSet(f, e.bit)) ==> |Join(Names(f, tab))| + 1 == Room(tab)
  {
    hide IsSet, Join;
    if tab != [] {
      var front, e := tab[..|tab| - 1], tab[|tab| - 1];
      JoinFitsRoom(f, front);
      NothingYet(f, tab);
      JoinSnoc(Names(f, front), e.name);
      assert Names(f, front) + [] == Names(f, front);
      NoNamesIff(f, front);
      if front != [] {
        assert front[0] in front;
      }
    }
  }

  lemma RoomStep(tab: seq<Feature>, i: nat)
    requires i < |tab|
    ensures Room(tab[..0]) == 0 && Room(tab[..i + 1]) == Room(tab[..i]) + |tab[i].name| + 1
  {
    assert tab[..i + 1][..i] == tab[..i];
  }

  lemma FeatureRoom()
    ensures Room(FEATURES) == 58
  {
    hide Room;
    RoomStep(FEATURES, 0);
    RoomStep(FEATURES, 1);
    RoomStep(FEATURES, 2);
    RoomStep(FEATURES, 3);
    RoomStep(FEATURES, 4);
    assert FEATURES[..5] == FEATURES;
  }

  /** `w` written on to the last part. */
  function Grow(parts: seq<string>, w: string): seq<string>
    requires parts != []
  {
    parts[..|parts| - 1] + [parts[|parts| - 1] + w]
  }

  /** Separated at each '|'. */
  function Split(s: string): (parts: seq<string>)
    ensures parts != []
  {
    if s == "" then [""]
    else
      var parts, c := Split(s[..|s| - 1]), s[|s| - 1];
      if c == '|' then parts + [""] else Grow(parts, [c])
  }

  lemma SplitSnoc(s: string, c: char)
    ensures Split(s + [c]) == if c == '|' then Split(s) + [""] else Grow(Split(s), [c])
  {
    assert (s + [c])[..|s|] == s;
  }

  lemma GrowTwice(parts: seq<string>, a: string, b: string)
    requires parts != []
    ensures Grow(Grow(parts, a), b) == Grow(parts, a + b)
  {
    assert parts[|parts| - 1] + a + b == parts[|parts| - 1] + (a + b);
  }

  lemma {:induction false} SplitWord(s: string, w: string)
    requires '|' !in w
    ensures Split(s + w) == Grow(Split(s), w)
    decreases |w|
  {
    hide Split, Grow;
    if w == "" {
      assert s + w == s;
      GrowNothing(Split(s));
    } else {
      var front, c := w[..|w| - 1], w[|w| - 1];
      SplitWord(s, front);
      assert w == front + [c] && s + w == (s + front) + [c];
      SplitSnoc(s + front, c);
      GrowTwice(Split(s), front, [c]);
    }
  }

  lemma GrowNothing(parts: seq<string>)
    requires parts != []
    ensures Grow(parts, "") == parts
  {
    assert parts[|parts| - 1] + "" == parts[|parts| - 1];
  }

  /** The names can be read back from the joined string. */
  lemma {:induction false} SplitJoin(names: seq<string>)
    requires names != [] && forall i :: 0 <= i < |names| ==> '|' !in names[i]
    ensures Split(Join(names)) == names
  {
    hide Split, Join;
    var front, last := names[..|names| - 1], names[|names| - 1];
    assert names == front + [last];
    JoinSnoc(front, last);
    if front == [] {
      SplitWord("", last);
      GrowFresh([], last);
      SplitEmpty();
    } else {
      SplitJoin(front);
      SplitSnoc(Join(front), '|');
      SplitWord(Join(front) + "|", last);
      GrowFresh(front, last);
    }
  }

  lemma SplitEmpty()
    ensures Split("") == [""]
  {
  }

  lemma GrowFresh(front: seq<string>, last: string)
    ensures Grow(front + [""], last) == front + [last]
    ensures "" + last == last
  {
    var parts := front + [""];
    assert parts[..|parts| - 1] == front && parts[|parts| - 1] + last == last;
  }

  ghost predicate Distinct(tab: seq<Feature>) {
    forall i, j :: 0 <= i < j < |tab| ==> tab[i].name != tab[j].name
  }

  lemma ListedBit(f: Word, tab: seq<Feature>, e: Feature)
    requires Distinct(tab) && e in tab && e.name in Names(f, tab)
    ensures IsSet(f, e.bit)
  {
    hide IsSet, Names;
    NamesAreListed(f, tab);
    var e' :| e' in tab && e'.name == e.name && IsSet(f, e'.bit);
    var i :| 0 <= i < |tab| && tab[i] == e;
    var j :| 0 <= j < |tab| && tab[j] == e';
    assert tab[i].name == tab[j].name;
    assert e == e';
  }

  lemma NamesTellBits(f: Word, g: Word, tab: seq<Feature>)
    requires Distinct(tab) && Names(f, tab) == Names(g, tab)
    ensures forall e :: e in tab ==> (IsSet(f, e.bit) <==> IsSet(g, e.bit))
  {
    hide IsSet, Names, Distinct;
    NamesAreListed(f, tab);
    NamesAreListed(g, tab);
    forall e | e in tab ensures IsSet(f, e.bit) <==> IsSet(g, e.bit) {
      if IsSet(f, e.bit) || IsSet(g, e.bit) {
        assert e.name in Names(f, tab);
        ListedBit(f, tab, e);
        ListedBit(g, tab, e);
      }
    }
  }

  ghost predicate SameBits(f: Word, g: Word) {
    forall e :: e in FEATURES ==> (IsSet(f, e.bit) <==> IsSet(g, e.bit))
  }

  ghost predicate TellsBits(n: nat)
    requires n > 0
  {
    forall f: Word, g: Word :: Text(f, n) == Text(g, n) ==> SameBits(f, g)
  }

  const ROOM_FOR_ALL: nat := 59

  lemma AllShown(f: Word, n: nat)
    requires n >= ROOM_FOR_ALL
    ensures Shown(Names(f, FEATURES), n) == Names(f, FEATURES)
  {
    hide Names, Join;
    JoinFitsRoom(f, FEATURES);
    FeatureRoom();
  }

  lemma ReadBack(f: Word, n: nat)
    requires n >= ROOM_FOR_ALL && Names(f, FEATURES) != []
    ensures Split(Text(f, n)) == Names(f, FEATURES)
  {
    hide Names, Join, Shown, Split, IsSet, NameOk;
    AllShown(f, n);
    FeaturesWellNamed();
    NamesAreListed(f, FEATURES);
    var names := Names(f, FEATURES);
    forall i | 0 <= i < |names| ensures '|' !in names[i] {
      assert names[i] in names;
      NameFacts(names[i]);
    }
    SplitJoin(names);
  }

  lemma NameFacts(name: string)
    requires NameOk(name)
    ensures '|' !in name
  {
  }

  lemma FeaturesDistinct()
    ensures Distinct(FEATURES)
  {
    assert |FEATURES[0].name| == 10 && |FEATURES[1].name| == 6 && |FEATURES[4].name| == 13;
    assert FEATURES[2].name[0] == 'C' && FEATURES[3].name[0] == 'P';
  }

  lemma SameTextSameBits(f: Word, g: Word, n: nat)
    requires n >= ROOM_FOR_ALL && Text(f, n) == Text(g, n)
    ensures SameBits(f, g)
  {
    hide Names, Join, Shown, Split, IsSet, Text, NoneKnown, SameBits, Distinct;
    NoneSetFrom15(f, n);
    NoneSetFrom15(g, n);
    NoneIsNoNames(f);
    NoneIsNoNames(g);
    if Names(f, FEATURES) != [] {
      ReadBack(f, n);
      ReadBack(g, n);
    }
    FeaturesDistinct();
    SameNamesSameBits(f, g);
  }

  lemma SameNamesSameBits(f: Word, g: Word)
    requires Names(f, FEATURES) == Names(g, FEATURES) && Distinct(FEATURES)
    ensures SameBits(f, g)
  {
    hide Names, IsSet;
    NamesTellBits(f, g, FEATURES);
  }

  lemma NoneIsNoNames(f: Word)
    ensures NoneKnown(f) <==> Names(f, FEATURES) == []
  {
    hide Names, IsSet;
    NoNamesIff(f, FEATURES);
  }

  lemma FiveAndFour()
    ensures |Names(ALL_FIVE, FEATURES)| == 5 && Names(FIRST_FOUR, FEATURES) == Names(ALL_FIVE, FEATURES)[..4]
    ensures forall e :: e in FEATURES ==> IsSet(ALL_FIVE, e.bit)
    ensures !IsSet(FIRST_FOUR, 6)
  {
    hide Names;
    BitWeights();
    NamesOf(ALL_FIVE);
    NamesOf(FIRST_FOUR);
  }

  /** One byte less and the last name is dropped from the full list. */
  lemma LastNameDropped(n: nat)
    requires 0 < n < ROOM_FOR_ALL
    ensures Text(ALL_FIVE, n) == Text(FIRST_FOUR, n) && !SameBits(ALL_FIVE, FIRST_FOUR)
  {
    hide Names, Join, IsSet;
    FiveAndFour();
    JoinFitsRoom(ALL_FIVE, FEATURES);
    FeatureRoom();
    assert FEATURES[4].bit == 6 && FEATURES[4] in FEATURES;
  }

  /** The text tells the known bits exactly from 59 bytes on (the tool has 128). */
  lemma TellsBitsIff(n: nat)
    requires n > 0
    ensures TellsBits(n) <==> n >= ROOM_FOR_ALL
  {
    hide Text, SameBits;
    if n >= ROOM_FOR_ALL {
      forall f: Word, g: Word | Text(f, n) == Text(g, n) ensures SameBits(f, g) {
        SameTextSameBits(f, g, n);
      }
    } else {
      LastNameDropped(n);
    }
  }
}
