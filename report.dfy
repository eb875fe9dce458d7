/** What `waybar_output` reports: the severity class and icon, the `text`
    and `alt` fields, and the tooltip assembled by `_format_tooltip`. */
module Report {
  import opened Text
  import opened Lists
  import opened Nvidia
  import opened Updates

  /** The three states of the widget, in priority order. */
  datatype Severity = NvidiaWarning | HasUpdates | NoUpdates

  /** The icon/class choice of `waybar_output`: NVIDIA updates win over
      plain updates, which win over none. */
  function SelectSeverity(nvidiaCount: nat, total: nat): (s: Severity)
    ensures s == NvidiaWarning <==> nvidiaCount > 0
    ensures s == HasUpdates <==> nvidiaCount == 0 && total > 0
    ensures s == NoUpdates <==> nvidiaCount == 0 && total == 0
  {
    if nvidiaCount > 0 then NvidiaWarning
    else if total > 0 then HasUpdates
    else NoUpdates
  }

  function Icon(s: Severity): string {
    match s
    case NvidiaWarning => "\U{26A0}\U{FE0F}"
    case HasUpdates => "\U{1F504}"
    case NoUpdates => "\U{2705}"
  }

  /** The `"class"` field. */
  function ClassName(s: Severity): string {
    match s
    case NvidiaWarning => "nvidia-warning"
    case HasUpdates => "has-updates"
    case NoUpdates => "no-updates"
  }

  /** The dictionary `waybar_output` returns. */
  datatype Waybar = Waybar(text: string, alt: string, tooltip: string, cssClass: string)

  /** `get_total_updates()`: `nvidia_updates` does not enter the count. */
  function TotalUpdates(official: seq<Rec>, aur: seq<Rec>): (n: nat)
    ensures n == |official + aur|
    ensures n == 0 <==> official == [] && aur == []
  {
    |official| + |aur|
  }

  /** `waybar_output` once the lists are filled. */
  function Status(official: seq<Rec>, aur: seq<Rec>, nvidia: seq<Rec>): Waybar {
    var total := TotalUpdates(official, aur);
    var sev := SelectSeverity(|nvidia|, total);
    Waybar(Icon(sev) + Decimal(total), "Updates: " + Decimal(total),
           Tooltip(official, aur, nvidia), ClassName(sev))
  }

  /** `text` is the icon of the severity followed by the total in decimal
      (at least one digit, no leading zero), `alt` is `"Updates: "`
      followed by the same digits, and the tooltip is the one
      `_format_tooltip` builds. */
  lemma StatusText(official: seq<Rec>, aur: seq<Rec>, nvidia: seq<Rec>)
    ensures var w := Status(official, aur, nvidia);
      var total := TotalUpdates(official, aur);
      var sev := SelectSeverity(|nvidia|, total);
      && Icon(sev) <= w.text
      && |w.text| > |Icon(sev)|
      && (|w.text| > |Icon(sev)| + 1 ==> w.text[|Icon(sev)|] != '0')
      && IsDecimal(w.text[|Icon(sev)|..])
      && DecimalValue(w.text[|Icon(sev)|..]) == total
      && w.alt == "Updates: " + w.text[|Icon(sev)|..]
      && w.cssClass == ClassName(sev)
      && w.tooltip == Tooltip(official, aur, nvidia)
  {
    var w := Status(official, aur, nvidia);
    var total := TotalUpdates(official, aur);
    var sev := SelectSeverity(|nvidia|, total);
    assert w.text[|Icon(sev)|..] == Decimal(total);
  }

  /** The class is `nvidia-warning` exactly when `nvidia_updates` is
      non-empty; otherwise `has-updates` exactly when there is an update;
      otherwise `no-updates`. */
  lemma StatusClass(official: seq<Rec>, aur: seq<Rec>, nvidia: seq<Rec>)
    ensures Status(official, aur, nvidia).cssClass == "nvidia-warning" <==> nvidia != []
    ensures Status(official, aur, nvidia).cssClass == "has-updates" <==>
      nvidia == [] && official + aur != []
    ensures Status(official, aur, nvidia).cssClass == "no-updates" <==>
      nvidia == [] && official == [] && aur == []
  {
    var sev := SelectSeverity(|nvidia|, TotalUpdates(official, aur));
    assert ClassName(NvidiaWarning) == "nvidia-warning";
    assert ClassName(HasUpdates) == "has-updates";
    assert ClassName(NoUpdates) == "no-updates";
    assert official + aur != [] <==> |official| + |aur| > 0 by {
      assert |official + aur| == |official| + |aur|;
    }
  }

  // ---------------------------------------------------------------------
  // Tooltip

  const Banner: string := "\U{1F6A8} NVIDIA DRIVER UPDATES AVAILABLE!"
  const Advisory: string := "Consider checking Arch news before updating"
  const OfficialHeader: string := "\U{1F4E6} Official Updates:"
  const NvidiaHeader: string := "NVIDIA packages:"
  const OtherHeader: string := "Other packages:"
  const AurHeader: string := "\U{1F31F} AUR Updates:"
  const UpToDate: string := "\U{2705} System is up to date"

  /** How many entries a capped list shows. */
  const Cap: nat := 8

  function KindName(k: Kind): string {
    match k
    case Official => "official"
    case Aur => "aur"
  }

  /** `str(pkg)` of a record dictionary. */
  function Repr(r: Rec): string {
    "{'name': '" + r.name + "', 'current': '" + r.current + "', 'new': '" + r.newVersion
      + "', 'type': '" + KindName(r.kind) + "'}"
  }

  function CountLine(n: nat): string {
    "Count:" + Decimal(n)
  }

  function SummaryLine(total: nat): string {
    "\U{1F4CA} Total: " + Decimal(total) + " updates"
  }

  /** ` • name: current -> new`. */
  function OfficialEntry(r: Rec): string {
    " \U{2022} " + r.name + ": " + r.current + " -> " + r.newVersion
  }

  /** An AUR record shown inside the official section. */
  function InlineAurEntry(r: Rec): string {
    " \U{2022} " + Repr(r)
  }

  /** An AUR record in the AUR section, marked when it is in `nvidia_updates`. */
  function AurEntry(r: Rec, nvidia: seq<Rec>): string {
    if r in nvidia then "  \U{26A0}\U{FE0F} " + Repr(r) + " (NVIDIA)"
    else AurBullet(r)
  }

  /** The overflow line of the AUR block inside the official section
      (written without a space after "and"). */
  function InlineOverflow(n: nat): string
    requires n > Cap
  {
    " ...and" + Decimal(n - Cap) + " more"
  }

  /** The overflow line of the AUR section. */
  function AurOverflow(n: nat): string
    requires n > Cap
  {
    "  ... and " + Decimal(n - Cap) + " more"
  }

  function OfficialEntries(s: seq<Rec>): (lines: seq<string>)
    ensures |lines| == |s|
    ensures forall i :: 0 <= i < |s| ==> lines[i] == OfficialEntry(s[i])
  {
    Map(OfficialEntry, s)
  }

  function InlineAurEntries(s: seq<Rec>): (lines: seq<string>)
    ensures |lines| == |s|
    ensures forall i :: 0 <= i < |s| ==> lines[i] == InlineAurEntry(s[i])
  {
    Map(InlineAurEntry, s)
  }

  function AurEntries(s: seq<Rec>, nvidia: seq<Rec>): (lines: seq<string>)
    ensures |lines| == |s|
    ensures forall i :: 0 <= i < |s| ==> lines[i] == AurEntry(s[i], nvidia)
  {
    Map((r: Rec) => AurEntry(r, nvidia), s)
  }

  /** `[pkg for pkg in s if pkg in nvidia]`. */
  function Members(s: seq<Rec>, nvidia: seq<Rec>): seq<Rec> {
    Filter((r: Rec) => r in nvidia, s)
  }

  /** `[pkg for pkg in s if pkg not in nvidia]`. */
  function NonMembers(s: seq<Rec>, nvidia: seq<Rec>): seq<Rec> {
    Filter((r: Rec) => r !in nvidia, s)
  }

  predicate IsOtherRec(r: Rec) {
    !IsNvidia(r.name)
  }

  /** The banner block: three lines when `nvidia_updates` is non-empty. */
  function BannerPart(nvidia: seq<Rec>): seq<string> {
    if nvidia != [] then [Banner, Advisory, ""] else []
  }

  /** The flagged official entries under their heading, uncapped; nothing
      when there are none. */
  function NvidiaBlock(nvOfficial: seq<Rec>): seq<string> {
    if nvOfficial != [] then [NvidiaHeader] + OfficialEntries(nvOfficial) else []
  }

  /** `for pkg in official_pkgs[:8]`: the other official entries, at most 8. */
  function OthersBlock(others: seq<Rec>): seq<string> {
    OfficialEntries(Take(others, Cap))
  }

  /** The first 8 other official entries, in order, with no overflow line. */
  lemma OthersBlockSpec(others: seq<Rec>)
    ensures var block := OthersBlock(others);
      && |block| == (if |others| <= Cap then |others| else Cap)
      && forall i :: 0 <= i < |block| ==> block[i] == OfficialEntry(others[i])
  {
    var shown := Take(others, Cap);
    assert forall i :: 0 <= i < |shown| ==> shown[i] == others[i];
  }

  /** The AUR records shown inside the official section: an "Other
      packages:" heading when NVIDIA entries precede them, the first 8 of
      them, and an overflow line when there are more. */
  function InlineAurBlock(otherAur: seq<Rec>, afterNvidia: bool): seq<string> {
    if otherAur == [] then []
    else
      (if afterNvidia then [OtherHeader] else [])
      + InlineAurEntries(Take(otherAur, Cap))
      + (if |otherAur| > Cap then [InlineOverflow(|otherAur|)] else [])
  }

  /** Nothing without AUR records; otherwise the heading exactly when
      NVIDIA entries precede, up to 8 entries, and an overflow line exactly
      when there are more than 8. */
  lemma InlineAurBlockSpec(otherAur: seq<Rec>, afterNvidia: bool)
    ensures otherAur == [] ==> InlineAurBlock(otherAur, afterNvidia) == []
    ensures otherAur != [] ==>
      var block := InlineAurBlock(otherAur, afterNvidia);
      var head := if afterNvidia then 1 else 0;
      var shown := if |otherAur| <= Cap then |otherAur| else Cap;
      && |block| == head + shown + (if |otherAur| > Cap then 1 else 0)
      && (afterNvidia ==> block[0] == OtherHeader)
      && (|otherAur| > Cap ==> block[|block| - 1] == InlineOverflow(|otherAur|))
  {
    if otherAur != [] {
      var heading: seq<string> := if afterNvidia then [OtherHeader] else [];
      var overflow: seq<string> := if |otherAur| > Cap then [InlineOverflow(|otherAur|)] else [];
      ConcatParts(heading, InlineAurEntries(Take(otherAur, Cap)), overflow);
    }
  }

  /** The entries of that block are the first 8 AUR records, in order. */
  lemma InlineAurBlockEntries(otherAur: seq<Rec>, afterNvidia: bool)
    requires otherAur != []
    ensures var block := InlineAurBlock(otherAur, afterNvidia);
      var head := if afterNvidia then 1 else 0;
      forall i :: 0 <= i < |otherAur| && i < Cap ==> block[head + i] == InlineAurEntry(otherAur[i])
  {
    var shown := Take(otherAur, Cap);
    var heading: seq<string> := if afterNvidia then [OtherHeader] else [];
    var entries := InlineAurEntries(shown);
    var overflow: seq<string> := if |otherAur| > Cap then [InlineOverflow(|otherAur|)] else [];
    var block := heading + entries + overflow;
    ConcatParts(heading, entries, overflow);
    forall i | 0 <= i < |otherAur| && i < Cap
      ensures block[|heading| + i] == InlineAurEntry(otherAur[i])
    {
      assert shown[i] == otherAur[i];
    }
  }

  /** The official section appended to `lines` (source lines 160-206). The
      up-to-date branch inside it is kept as written; the section only ever
      appends, so `lines` stays a prefix. */
  function OfficialPart(lines: seq<string>, official: seq<Rec>, aur: seq<Rec>, nvidia: seq<Rec>): seq<string>
  {
    if official == [] then lines
    else
      var nvOfficial := Members(official, nvidia);
      var body := lines + [OfficialHeader] + [CountLine(|official|)]
        + NvidiaBlock(nvOfficial)
        + OthersBlock(NonMembers(official, nvidia))
        + InlineAurBlock(NonMembers(aur, nvidia), nvOfficial != []);
      if body == [] then body + [UpToDate]
      else body + [""] + [SummaryLine(|official| + |aur|)]
  }

  /** An AUR entry without the NVIDIA marker. */
  function AurBullet(r: Rec): string {
    "  \U{2022} " + Repr(r)
  }

  /** The AUR section proper: its heading, the first 8 AUR records, and
      an overflow line when there are more. */
  function AurBlock(aur: seq<Rec>, nvidia: seq<Rec>): seq<string> {
    [AurHeader] + AurEntries(Take(aur, Cap), nvidia)
    + (if |aur| > Cap then [AurOverflow(|aur|)] else [])
  }

  /** The heading, the first 8 AUR records in order, and an overflow line
      exactly when there are more than 8. */
  lemma AurBlockSpec(aur: seq<Rec>, nvidia: seq<Rec>)
    ensures var block := AurBlock(aur, nvidia);
      var shown := if |aur| <= Cap then |aur| else Cap;
      && |block| == 1 + shown + (if |aur| > Cap then 1 else 0)
      && block[0] == AurHeader
      && (forall i :: 0 <= i < shown ==> block[1 + i] == AurEntry(aur[i], nvidia))
      && (|aur| > Cap ==> block[|block| - 1] == AurOverflow(|aur|))
  {
    var shown := Take(aur, Cap);
    assert forall i :: 0 <= i < |shown| ==> shown[i] == aur[i];
  }

  /** The AUR section appended to `lines` (source lines 208-219), after a
      blank line when something precedes it. */
  function AurPart(lines: seq<string>, aur: seq<Rec>, nvidia: seq<Rec>): seq<string>
  {
    if aur == [] then lines
    else (if lines != [] then lines + [""] else lines) + AurBlock(aur, nvidia)
  }

  /** The official section only appends: what precedes it stays a prefix,
      and it adds lines exactly when there are official updates. */
  lemma OfficialPartExtends(lines: seq<string>, official: seq<Rec>, aur: seq<Rec>, nvidia: seq<Rec>)
    ensures lines <= OfficialPart(lines, official, aur, nvidia)
    ensures official == [] <==> OfficialPart(lines, official, aur, nvidia) == lines
  {
    var r := OfficialPart(lines, official, aur, nvidia);
    if official != [] {
      assert |r| > |lines|;
      assert r[..|lines|] == lines;
    }
  }

  /** The AUR section likewise, exactly when there are AUR updates. */
  lemma AurPartExtends(lines: seq<string>, aur: seq<Rec>, nvidia: seq<Rec>)
    ensures lines <= AurPart(lines, aur, nvidia)
    ensures aur == [] <==> AurPart(lines, aur, nvidia) == lines
  {
    var r := AurPart(lines, aur, nvidia);
    if aur != [] {
      AurBlockSpec(aur, nvidia);
      assert |r| > |lines|;
      assert r[..|lines|] == lines;
    }
  }

  /** The list of tooltip lines `_format_tooltip` builds. */
  function TooltipLines(official: seq<Rec>, aur: seq<Rec>, nvidia: seq<Rec>): (lines: seq<string>)
    ensures lines != []
  {
    var lines := AurPart(OfficialPart(BannerPart(nvidia), official, aur, nvidia), aur, nvidia);
    if lines == [] then [UpToDate] else lines
  }

  /** `"\n".join(tooltip_lines)`. */
  function Tooltip(official: seq<Rec>, aur: seq<Rec>, nvidia: seq<Rec>): string {
    Join(TooltipLines(official, aur, nvidia), '\n')
  }

  /** With NVIDIA updates pending the tooltip opens with the banner, the
      advisory and a blank line. */
  lemma TooltipBannerFirst(official: seq<Rec>, aur: seq<Rec>, nvidia: seq<Rec>)
    requires nvidia != []
    ensures |TooltipLines(official, aur, nvidia)| >= 3
    ensures TooltipLines(official, aur, nvidia)[..3] == [Banner, Advisory, ""]
  {
    var b := BannerPart(nvidia);
    var o := OfficialPart(b, official, aur, nvidia);
    var a := AurPart(o, aur, nvidia);
    assert b <= o <= a;
    assert a[..3] == b;
  }

  /** Without NVIDIA updates the tooltip does not start with the banner. */
  lemma TooltipNoBanner(official: seq<Rec>, aur: seq<Rec>, nvidia: seq<Rec>)
    requires nvidia == []
    ensures TooltipLines(official, aur, nvidia)[0] != Banner
  {
    var o := OfficialPart([], official, aur, nvidia);
    var a := AurPart(o, aur, nvidia);
    if official != [] {
      assert o[0] == OfficialHeader;
      assert a[0] == o[0];
      assert OfficialHeader[0] != Banner[0];
    } else if aur != [] {
      assert a[0] == AurHeader;
      assert AurHeader[0] != Banner[0];
    } else {
      assert UpToDate[0] != Banner[0];
    }
  }

  /** With nothing to report the tooltip is the single up-to-date line. */
  lemma TooltipUpToDate(official: seq<Rec>, aur: seq<Rec>, nvidia: seq<Rec>)
    requires Consistent(official, aur, nvidia)
    requires official == [] && aur == []
    ensures Tooltip(official, aur, nvidia) == UpToDate
  {
    NvidiaNonEmptyIff(official, aur, nvidia);
  }

  /** In a consistent state the comprehensions over `nvidia_updates` pick
      out exactly the flagged official records, and every AUR record counts
      as "other". */
  lemma MembershipIsClassification(official: seq<Rec>, aur: seq<Rec>, nvidia: seq<Rec>)
    requires Consistent(official, aur, nvidia)
    ensures Members(official, nvidia) == Filter(IsNvidiaRec, official)
    ensures NonMembers(official, nvidia) == Filter(IsOtherRec, official)
    ensures NonMembers(aur, nvidia) == aur
    ensures forall r :: r in aur ==> AurEntry(r, nvidia) == AurBullet(r)
  {
    forall r | r in official ensures (r in nvidia) == IsNvidiaRec(r) {
      OfficialInNvidiaIff(official, aur, nvidia, r);
    }
    FilterCongruent((r: Rec) => r in nvidia, IsNvidiaRec, official);
    FilterCongruent((r: Rec) => r !in nvidia, IsOtherRec, official);
    forall r | r in aur ensures r !in nvidia {
      AurNeverInNvidia(official, aur, nvidia, r);
    }
    FilterAll((r: Rec) => r !in nvidia, aur);
  }

  /** A non-empty official section as it is laid out: header and count,
      the NVIDIA block, the other official packages, the AUR records shown
      inline, a blank line and the total. */
  function OfficialSection(lines: seq<string>, count: nat, nvOfficial: seq<Rec>,
                           others: seq<Rec>, otherAur: seq<Rec>, total: nat): seq<string>
  {
    lines + [OfficialHeader] + [CountLine(count)]
    + NvidiaBlock(nvOfficial)
    + OthersBlock(others)
    + InlineAurBlock(otherAur, nvOfficial != [])
    + [""] + [SummaryLine(total)]
  }

  /** A non-empty official section never takes the up-to-date branch. */
  lemma OfficialPartNonEmpty(lines: seq<string>, official: seq<Rec>, aur: seq<Rec>, nvidia: seq<Rec>)
    requires official != []
    ensures OfficialPart(lines, official, aur, nvidia) ==
      OfficialSection(lines, |official|, Members(official, nvidia), NonMembers(official, nvidia),
                      NonMembers(aur, nvidia), |official| + |aur|)
  {
  }

  /** The official section: header and count; every flagged official
      package under "NVIDIA packages:" (uncapped); at most 8 other official
      packages with no overflow line; every AUR record, flagged or not, as
      an "other" package, at most 8 of them plus an overflow line; and
      always the blank line and the total, since the section is never empty. */
  lemma OfficialSectionShape(lines: seq<string>, official: seq<Rec>, aur: seq<Rec>, nvidia: seq<Rec>)
    requires Consistent(official, aur, nvidia)
    requires official != []
    ensures OfficialPart(lines, official, aur, nvidia) ==
      OfficialSection(lines, |official|, Filter(IsNvidiaRec, official), Filter(IsOtherRec, official),
                      aur, |official| + |aur|)
  {
    MembershipIsClassification(official, aur, nvidia);
    OfficialPartNonEmpty(lines, official, aur, nvidia);
  }

  /** The AUR section shows plain bullets only: the NVIDIA marker is never
      produced, because no AUR record is in `nvidia_updates`. */
  lemma AurSectionPlain(official: seq<Rec>, aur: seq<Rec>, nvidia: seq<Rec>)
    requires Consistent(official, aur, nvidia)
    ensures var shown := if |aur| <= Cap then |aur| else Cap;
      forall i :: 0 <= i < shown ==> AurBlock(aur, nvidia)[1 + i] == AurBullet(aur[i])
  {
    MembershipIsClassification(official, aur, nvidia);
    AurBlockSpec(aur, nvidia);
    var shown := if |aur| <= Cap then |aur| else Cap;
    forall i | 0 <= i < shown ensures AurBlock(aur, nvidia)[1 + i] == AurBullet(aur[i]) {
      assert aur[i] in aur;
    }
  }

  /** The tooltip never runs long: at most 37 lines besides one per flagged
      official package. */
  lemma TooltipLineBound(official: seq<Rec>, aur: seq<Rec>, nvidia: seq<Rec>)
    ensures |TooltipLines(official, aur, nvidia)| <= 37 + |Members(official, nvidia)|
  {
    var b := BannerPart(nvidia);
    var o := OfficialPart(b, official, aur, nvidia);
    var a := AurPart(o, aur, nvidia);
    OthersBlockSpec(NonMembers(official, nvidia));
    InlineAurBlockSpec(NonMembers(aur, nvidia), Members(official, nvidia) != []);
    AurBlockSpec(aur, nvidia);
    assert |a| <= |o| + 11;
    assert |o| <= |b| + 23 + |Members(official, nvidia)|;
  }
}
