/** The `AURChecker` object: three lists that the two parsers append to,
    the total, and the Waybar dictionary with its tooltip. The output of
    `pacman -Qu` and `yay -Qua` is passed in as a string; a command that
    fails or is missing is the empty string. */
module Checker {
  import opened Text
  import opened Lists
  import opened Nvidia
  import opened Updates
  import opened Report

  class AurChecker {
    var official: seq<Rec>
    var aur: seq<Rec>
    var nvidia: seq<Rec>

    /** The lists stay consistent: `nvidia` holds one `"official"` copy of
        each flagged record of the two other lists, and nothing else. */
    ghost predicate Valid()
      reads this
    {
      Consistent(official, aur, nvidia)
    }

    constructor()
      ensures official == [] && aur == [] && nvidia == []
      ensures Valid()
    {
      official := [];
      aur := [];
      nvidia := [];
    }

    /** `get_official_updates`: the output is stripped and split at
        newlines, and the lines are parsed in order. */
    method GetOfficialUpdates(stdout: string)
      requires Valid()
      modifies this
      ensures Valid()
      ensures official == old(official) + Parse(Lines(stdout), Official)
      ensures aur == old(aur)
      ensures nvidia == old(nvidia) + NvidiaCopies(Parse(Lines(stdout), Official))
    {
      AddOfficialLines(Lines(stdout));
    }

    /** The loop of `get_official_updates`: every line `ParseLine` accepts
        is appended as an `"official"` record, and its copy goes to
        `nvidia` when the name is flagged. */
    method AddOfficialLines(lines: seq<string>)
      requires Valid()
      modifies this
      ensures Valid()
      ensures official == old(official) + Parse(lines, Official)
      ensures aur == old(aur)
      ensures nvidia == old(nvidia) + NvidiaCopies(Parse(lines, Official))
    {
      ghost var parsed: seq<Rec> := [];
      for i := 0 to |lines|
        invariant parsed == Parse(lines[..i], Official)
        invariant official == old(official) + parsed
        invariant aur == old(aur)
        invariant nvidia == old(nvidia) + NvidiaCopies(parsed)
        invariant Valid()
      {
        ghost var step := Accepted(lines[i], Official);
        AddOfficialLine(lines[i]);
        ParsePrefix(lines, i, Official);
        NvidiaCopiesAppend(parsed, step);
        AppendAssoc(old(official), parsed, step);
        AppendAssoc(old(nvidia), NvidiaCopies(parsed), NvidiaCopies(step));
        parsed := parsed + step;
      }
      assert lines[..|lines|] == lines;
    }

    /** The body of that loop for one line: the record `ParseLine` accepts
        is appended to `official_updates`, and its `"official"` copy to
        `nvidia_updates` when the name is flagged. */
    method AddOfficialLine(line: string)
      requires Valid()
      modifies this
      ensures Valid()
      ensures official == old(official) + Accepted(line, Official)
      ensures aur == old(aur)
      ensures nvidia == old(nvidia) + NvidiaCopies(Accepted(line, Official))
    {
      match ParseLine(line, Official)
      case Some(pkg) =>
        assert Accepted(line, Official) == [pkg];
        NvidiaCopiesOne(pkg);
        official := official + [pkg];
        if IsNvidia(pkg.name) {
          nvidia := nvidia + [WithKind(pkg, Official)];
        }
        ConsistentAddOfficial(old(official), aur, old(nvidia), [pkg]);
      case None =>
    }

    /** `get_aur_updates`: the same for the output of `yay -Qua`. */
    method GetAurUpdates(stdout: string)
      requires Valid()
      modifies this
      ensures Valid()
      ensures official == old(official)
      ensures aur == old(aur) + Parse(Lines(stdout), Aur)
      ensures nvidia == old(nvidia) + NvidiaCopies(Parse(Lines(stdout), Aur))
    {
      AddAurLines(Lines(stdout));
    }

    /** The loop of `get_aur_updates`: accepted lines become `"aur"`
        records; the copy sent to `nvidia` is still typed `"official"`. */
    method AddAurLines(lines: seq<string>)
      requires Valid()
      modifies this
      ensures Valid()
      ensures official == old(official)
      ensures aur == old(aur) + Parse(lines, Aur)
      ensures nvidia == old(nvidia) + NvidiaCopies(Parse(lines, Aur))
    {
      ghost var parsed: seq<Rec> := [];
      for i := 0 to |lines|
        invariant parsed == Parse(lines[..i], Aur)
        invariant aur == old(aur) + parsed
        invariant official == old(official)
        invariant nvidia == old(nvidia) + NvidiaCopies(parsed)
        invariant Valid()
      {
        ghost var step := Accepted(lines[i], Aur);
        AddAurLine(lines[i]);
        ParsePrefix(lines, i, Aur);
        NvidiaCopiesAppend(parsed, step);
        AppendAssoc(old(aur), parsed, step);
        AppendAssoc(old(nvidia), NvidiaCopies(parsed), NvidiaCopies(step));
        parsed := parsed + step;
      }
      assert lines[..|lines|] == lines;
    }

    /** The body of that loop for one line: the record `ParseLine` accepts
        is appended to `aur_updates`, and its `"official"` copy to
        `nvidia_updates` when the name is flagged. */
    method AddAurLine(line: string)
      requires Valid()
      modifies this
      ensures Valid()
      ensures aur == old(aur) + Accepted(line, Aur)
      ensures official == old(official)
      ensures nvidia == old(nvidia) + NvidiaCopies(Accepted(line, Aur))
    {
      match ParseLine(line, Aur)
      case Some(pkg) =>
        assert Accepted(line, Aur) == [pkg];
        NvidiaCopiesOne(pkg);
        aur := aur + [pkg];
        if IsNvidia(pkg.name) {
          nvidia := nvidia + [WithKind(pkg, Official)];
        }
        ConsistentAddAur(official, old(aur), old(nvidia), [pkg]);
      case None =>
    }

    /** `get_all_updates`: official first, then AUR. */
    method GetAllUpdates(officialOut: string, aurOut: string)
      requires Valid()
      modifies this
      ensures Valid()
      ensures official == old(official) + Parse(Lines(officialOut), Official)
      ensures aur == old(aur) + Parse(Lines(aurOut), Aur)
      ensures nvidia == old(nvidia) + NvidiaCopies(Parse(Lines(officialOut), Official))
                                    + NvidiaCopies(Parse(Lines(aurOut), Aur))
    {
      GetOfficialUpdates(officialOut);
      GetAurUpdates(aurOut);
    }

    /** `get_total_updates`: official plus AUR; `nvidia` copies are not counted. */
    method GetTotalUpdates() returns (n: nat)
      ensures n == |official| + |aur|
      ensures n == |official + aur|
    {
      n := |official| + |aur|;
    }

    /** `_format_tooltip`: the banner, the official section and the AUR
        section are appended one after the other, the up-to-date line
        replaces an empty list, and the lines are joined with newlines. */
    method FormatTooltip() returns (tooltip: string)
      ensures tooltip == Tooltip(official, aur, nvidia)
    {
      var lines: seq<string> := [];
      if nvidia != [] {
        lines := lines + [Banner];
        lines := lines + [Advisory];
        lines := lines + [""];
      }
      assert lines == BannerPart(nvidia);
      lines := AppendOfficialSection(lines, official, aur, nvidia);
      lines := AppendAurSection(lines, aur, nvidia);
      if lines == [] {
        lines := lines + [UpToDate];
      }
      assert lines == TooltipLines(official, aur, nvidia);
      tooltip := Join(lines, '\n');
    }

    /** `waybar_output`: collect the updates, then report the icon and
        total, the tooltip and the severity class of the new state. */
    method WaybarOutput(officialOut: string, aurOut: string) returns (w: Waybar)
      requires Valid()
      modifies this
      ensures Valid()
      ensures official == old(official) + Parse(Lines(officialOut), Official)
      ensures aur == old(aur) + Parse(Lines(aurOut), Aur)
      ensures nvidia == old(nvidia) + NvidiaCopies(Parse(Lines(officialOut), Official))
                                    + NvidiaCopies(Parse(Lines(aurOut), Aur))
      ensures w == Status(official, aur, nvidia)
    {
      GetAllUpdates(officialOut, aurOut);
      var totalUpdates := GetTotalUpdates();
      var icon, cssClass;
      if |nvidia| > 0 {
        icon := "\U{26A0}\U{FE0F}";
        cssClass := "nvidia-warning";
      } else if totalUpdates > 0 {
        icon := "\U{1F504}";
        cssClass := "has-updates";
      } else {
        icon := "\U{2705}";
        cssClass := "no-updates";
      }
      var tooltip := FormatTooltip();
      w := Waybar(icon + Decimal(totalUpdates), "Updates: " + Decimal(totalUpdates), tooltip, cssClass);
    }
  }

  /** A new checker that parses both outputs holds consistent lists. */
  lemma FreshRunConsistent(officialOut: string, aurOut: string)
    ensures var o := Parse(Lines(officialOut), Official);
      var a := Parse(Lines(aurOut), Aur);
      Consistent(o, a, NvidiaCopies(o) + NvidiaCopies(a))
  {
    var o := Parse(Lines(officialOut), Official);
    var a := Parse(Lines(aurOut), Aur);
    assert Consistent([], [], []);
    ConsistentAddOfficial([], [], [], o);
    assert [] + o == o && [] + NvidiaCopies(o) == NvidiaCopies(o) && [] + a == a;
    ConsistentAddAur(o, [], NvidiaCopies(o), a);
  }

  /** A run of the widget on a new checker: the class is `nvidia-warning`
      exactly when a flagged package was parsed from either output, and
      `no-updates` exactly when neither output had an update line. */
  lemma FreshRunClass(officialOut: string, aurOut: string)
    ensures var o := Parse(Lines(officialOut), Official);
      var a := Parse(Lines(aurOut), Aur);
      var w := Status(o, a, NvidiaCopies(o) + NvidiaCopies(a));
      && (w.cssClass == "nvidia-warning" <==> exists r :: r in o + a && IsNvidia(r.name))
      && (w.cssClass == "no-updates" <==> o == [] && a == [])
  {
    var o := Parse(Lines(officialOut), Official);
    var a := Parse(Lines(aurOut), Aur);
    var nv := NvidiaCopies(o) + NvidiaCopies(a);
    FreshRunConsistent(officialOut, aurOut);
    NvidiaNonEmptyIff(o, a, nv);
    StatusClass(o, a, nv);
    if exists r: Rec :: r in o + a && IsNvidia(r.name) {
      var r: Rec :| r in o + a && IsNvidia(r.name);
      assert r in o || r in a;
    }
  }

  /** The official section of `_format_tooltip`, appended to `lines`
      when there are official updates. */
  method AppendOfficialSection(lines: seq<string>, official: seq<Rec>, aur: seq<Rec>, nvidia: seq<Rec>)
    returns (r: seq<string>)
    ensures r == OfficialPart(lines, official, aur, nvidia)
  {
    r := lines;
    if official != [] {
      r := r + [OfficialHeader];
      r := r + [CountLine(|official|)];
      var nvidiaOfficial := Members(official, nvidia);
      r := AppendNvidiaBlock(r, nvidiaOfficial);
      var officialPkgs := NonMembers(official, nvidia);
      r := AppendOthersBlock(r, officialPkgs);
      var otherAur := NonMembers(aur, nvidia);
      r := AppendInlineAurBlock(r, otherAur, nvidiaOfficial != []);
      if r == [] {
        r := r + [UpToDate];
      } else {
        r := r + [""];
        r := r + [SummaryLine(|official| + |aur|)];
      }
    }
  }

  /** The flagged official packages under their heading, all of them. */
  method AppendNvidiaBlock(lines: seq<string>, nvidiaOfficial: seq<Rec>) returns (r: seq<string>)
    ensures r == lines + NvidiaBlock(nvidiaOfficial)
  {
    r := lines;
    if nvidiaOfficial != [] {
      r := r + [NvidiaHeader];
      r := AppendOfficialEntries(r, nvidiaOfficial);
    }
  }

  /** The other official packages, the first 8 of them. */
  method AppendOthersBlock(lines: seq<string>, officialPkgs: seq<Rec>) returns (r: seq<string>)
    ensures r == lines + OthersBlock(officialPkgs)
  {
    r := lines;
    if officialPkgs != [] {
      r := AppendOfficialEntries(r, Take(officialPkgs, Cap));
    }
  }

  /** The AUR records shown in the official section: a heading after the
      NVIDIA block, the first 8, and the overflow line. */
  method AppendInlineAurBlock(lines: seq<string>, otherAur: seq<Rec>, afterNvidia: bool) returns (r: seq<string>)
    ensures r == lines + InlineAurBlock(otherAur, afterNvidia)
  {
    r := lines;
    if otherAur != [] {
      var heading: seq<string> := if afterNvidia then [OtherHeader] else [];
      if afterNvidia {
        r := r + [OtherHeader];
      }
      assert r == lines + heading;
      r := AppendInlineAurEntries(r, Take(otherAur, Cap));
      AppendAssoc(lines, heading, InlineAurEntries(Take(otherAur, Cap)));
      var overflow: seq<string> := if |otherAur| > Cap then [InlineOverflow(|otherAur|)] else [];
      if |otherAur| > Cap {
        r := r + [InlineOverflow(|otherAur|)];
      }
      assert r == lines + (heading + InlineAurEntries(Take(otherAur, Cap))) + overflow;
      AppendAssoc(lines, heading + InlineAurEntries(Take(otherAur, Cap)), overflow);
    }
  }

  /** The AUR section of `_format_tooltip`, after a blank line when
      something precedes it. */
  method AppendAurSection(lines: seq<string>, aur: seq<Rec>, nvidia: seq<Rec>) returns (r: seq<string>)
    ensures r == AurPart(lines, aur, nvidia)
  {
    r := lines;
    if aur != [] {
      if r != [] {
        r := r + [""];
      }
      ghost var before := r;
      var entries := AurEntries(Take(aur, Cap), nvidia);
      r := r + [AurHeader];
      r := AppendAurEntries(r, Take(aur, Cap), nvidia);
      AppendAssoc(before, [AurHeader], entries);
      var overflow: seq<string> := if |aur| > Cap then [AurOverflow(|aur|)] else [];
      if |aur| > Cap {
        r := r + [AurOverflow(|aur|)];
      }
      assert r == before + ([AurHeader] + entries) + overflow;
      AppendAssoc(before, [AurHeader] + entries, overflow);
    }
  }

  /** `for pkg in pkgs: tooltip_lines.append(f" • {name}: {current} -> {new}")`. */
  method AppendOfficialEntries(lines: seq<string>, pkgs: seq<Rec>) returns (r: seq<string>)
    ensures r == lines + OfficialEntries(pkgs)
  {
    r := lines;
    for k := 0 to |pkgs|
      invariant r == lines + OfficialEntries(pkgs[..k])
    {
      assert pkgs[..k + 1][..k] == pkgs[..k];
      r := r + [OfficialEntry(pkgs[k])];
    }
    assert pkgs[..|pkgs|] == pkgs;
  }

  /** `for pkg in other_aur[:8]: tooltip_lines.append(f" • {pkg}")`. */
  method AppendInlineAurEntries(lines: seq<string>, pkgs: seq<Rec>) returns (r: seq<string>)
    ensures r == lines + InlineAurEntries(pkgs)
  {
    r := lines;
    for k := 0 to |pkgs|
      invariant r == lines + InlineAurEntries(pkgs[..k])
    {
      assert pkgs[..k + 1][..k] == pkgs[..k];
      r := r + [InlineAurEntry(pkgs[k])];
    }
    assert pkgs[..|pkgs|] == pkgs;
  }

  /** The loop over `aur_updates[:8]`, with the NVIDIA marker for records
      found in `nvidia_updates`. */
  method AppendAurEntries(lines: seq<string>, pkgs: seq<Rec>, nvidia: seq<Rec>) returns (r: seq<string>)
    ensures r == lines + AurEntries(pkgs, nvidia)
  {
    r := lines;
    for k := 0 to |pkgs|
      invariant r == lines + AurEntries(pkgs[..k], nvidia)
    {
      assert pkgs[..k + 1][..k] == pkgs[..k];
      var pkg := pkgs[k];
      if pkg in nvidia {
        r := r + ["  \U{26A0}\U{FE0F} " + Repr(pkg) + " (NVIDIA)"];
      } else {
        r := r + ["  \U{2022} " + Repr(pkg)];
      }
    }
    assert pkgs[..|pkgs|] == pkgs;
  }
}
