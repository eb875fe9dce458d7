/** Update records and the parser of `pacman -Qu` / `yay -Qua` output. */
module Updates {
  import opened Text
  import opened Lists
  import opened Nvidia

  /** The `"type"` key of a record. */
  datatype Kind = Official | Aur

  /** One `{name, current, new, type}` dictionary. Records compare by value,
      as Python dictionaries do. */
  datatype Rec = Rec(name: string, current: string, newVersion: string, kind: Kind)

  datatype Option<T> = None | Some(value: T)

  /** The same record with another `"type"`. */
  function WithKind(r: Rec, k: Kind): (r': Rec)
    ensures r'.kind == k && r'.name == r.name
    ensures r'.current == r.current && r'.newVersion == r.newVersion
  {
    r.(kind := k)
  }

  /** `stdout.strip().split("\n")`. A command that failed or was not found
      leaves no output, which gives the single blank line `[""]`. */
  function Lines(stdout: string): (lines: seq<string>)
    ensures |lines| >= 1
  {
    SplitOn(Strip(stdout), '\n')
  }

  /** One line of output: blank lines and lines that are not
      `name current -> new ...` give nothing. */
  function ParseLine(line: string, kind: Kind): (r: Option<Rec>)
    ensures r.Some? ==> r.value.kind == kind
  {
    if Strip(line) == [] then None
    else
      var parts := Tokens(line);
      if |parts| >= 4 && parts[2] == "->" then Some(Rec(parts[0], parts[1], parts[3], kind))
      else None
  }

  /** A line is accepted exactly when it has at least four tokens and the
      third is `->`; the record takes tokens 0, 1 and 3. */
  lemma ParseLineIff(line: string, kind: Kind)
    ensures ParseLine(line, kind).Some? <==> |Tokens(line)| >= 4 && Tokens(line)[2] == "->"
    ensures ParseLine(line, kind).Some? ==>
      var ts := Tokens(line);
      ParseLine(line, kind).value == Rec(ts[0], ts[1], ts[3], kind)
  {
    TokensEmptyIffBlank(line);
  }

  /** The name of a parsed record is one whitespace-free token. */
  lemma ParseLineNameIsToken(line: string, kind: Kind)
    ensures ParseLine(line, kind).Some? ==> IsToken(ParseLine(line, kind).value.name)
  {
    TokensAreTokens(line);
  }

  /** A token, a space, and the rest: the token comes first. */
  lemma SpaceCons(w: string, rest: string, s: string)
    requires IsToken(w) && s == w + ([' '] + rest)
    ensures Tokens(s) == [w] + Tokens(rest)
  {
    TokensCons(w, [' '] + rest);
    assert ([' '] + rest)[1..] == rest;
  }

  /** The tokens of the last field, `new`, and whatever follows it. */
  lemma LastFieldTokens(newVersion: string, tail: string)
    requires IsToken(newVersion)
    requires tail == [] || IsSpace(tail[0])
    ensures Tokens(newVersion + tail) == [newVersion] + (if tail == [] then [] else Tokens(tail[1..]))
  {
    if tail == [] {
      assert newVersion + tail == newVersion;
      TokensSingle(newVersion);
    } else {
      TokensCons(newVersion, tail);
    }
  }

  /** The tokens of `name current -> rest`. */
  lemma LeadingFieldsTokens(name: string, current: string, rest: string, line: string)
    requires IsToken(name) && IsToken(current)
    requires line == name + ([' '] + (current + ([' '] + ("->" + ([' '] + rest)))))
    ensures Tokens(line) == [name] + ([current] + (["->"] + Tokens(rest)))
  {
    assert IsToken("->");
    var s3 := "->" + ([' '] + rest);
    SpaceCons("->", rest, s3);
    var s2 := current + ([' '] + s3);
    SpaceCons(current, s3, s2);
    SpaceCons(name, s2, line);
  }

  /** Sequence-associativity hint for `UpdateLineTokens`: four singletons
      prepended one by one are the four-element display. */
  lemma FourFirst<A>(a: A, b: A, c: A, d: A, rest: seq<A>)
    ensures [a] + ([b] + ([c] + ([d] + rest))) == [a, b, c, d] + rest
  {
  }

  /** How `name current -> new` is spelled. */
  function UpdateLine(name: string, current: string, newVersion: string): string {
    name + " " + current + " -> " + newVersion
  }

  /** Sequence-associativity hint for `UpdateLineTokens`: the printed line
      regrouped as each field followed by the rest. */
  lemma UpdateLineSpelling(name: string, current: string, newVersion: string, tail: string)
    ensures UpdateLine(name, current, newVersion) + tail
         == name + ([' '] + (current + ([' '] + ("->" + ([' '] + (newVersion + tail))))))
  {
  }

  /** The tokens of `name current -> new` followed by `tail`. */
  lemma UpdateLineTokens(name: string, current: string, newVersion: string, tail: string)
    requires IsToken(name) && IsToken(current) && IsToken(newVersion)
    requires tail == [] || IsSpace(tail[0])
    ensures Tokens(UpdateLine(name, current, newVersion) + tail)
         == [name, current, "->", newVersion] + (if tail == [] then [] else Tokens(tail[1..]))
  {
    var rest := if tail == [] then [] else Tokens(tail[1..]);
    LastFieldTokens(newVersion, tail);
    UpdateLineSpelling(name, current, newVersion, tail);
    LeadingFieldsTokens(name, current, newVersion + tail, UpdateLine(name, current, newVersion) + tail);
    FourFirst(name, current, "->", newVersion, rest);
  }

  /** A well-formed line `name current -> new`, optionally followed by
      anything after whitespace, gives exactly that record. */
  lemma ParseLineWellFormed(name: string, current: string, newVersion: string, tail: string, kind: Kind)
    requires IsToken(name) && IsToken(current) && IsToken(newVersion)
    requires tail == [] || IsSpace(tail[0])
    ensures ParseLine(UpdateLine(name, current, newVersion) + tail, kind)
         == Some(Rec(name, current, newVersion, kind))
  {
    var line := UpdateLine(name, current, newVersion) + tail;
    UpdateLineTokens(name, current, newVersion, tail);
    var ts := Tokens(line);
    assert |ts| >= 4 && ts[0] == name && ts[1] == current && ts[2] == "->" && ts[3] == newVersion;
    TokensEmptyIffBlank(line);
    assert Strip(line) != [];
  }

  /** A parsed package is flagged exactly when its name is `nvidia` or
      starts with `nvidia-`, `cuda`, `opencl-nvidia` or `lib32-nvidia-utils`:
      the `$` of the patterns never sees a newline in a parsed name. */
  lemma ParsedNameFlaggedIff(line: string, kind: Kind)
    requires ParseLine(line, kind).Some?
    ensures var name := ParseLine(line, kind).value.name;
      IsNvidia(name) <==>
        name == "nvidia" || "nvidia-" <= name || "cuda" <= name ||
        "opencl-nvidia" <= name || "lib32-nvidia-utils" <= name
  {
    var name := ParseLine(line, kind).value.name;
    ParseLineNameIsToken(line, kind);
    NoNewline(name);
    IsNvidiaToken(name);
  }

  /** The records parsed from `lines`, in line order (the loop body of
      `get_official_updates` and `get_aur_updates`). */
  function Parse(lines: seq<string>, kind: Kind): (recs: seq<Rec>)
    ensures |recs| <= |lines|
    ensures forall r :: r in recs ==> r.kind == kind
  {
    if lines == [] then []
    else
      var rest := Parse(lines[..|lines| - 1], kind);
      match ParseLine(lines[|lines| - 1], kind)
      case Some(r) => rest + [r]
      case None => rest
  }

  /** Parsing line by line: the records of two blocks of output are those of
      the first followed by those of the second. */
  lemma {:induction false} ParseAppend(a: seq<string>, b: seq<string>, kind: Kind)
    ensures Parse(a + b, kind) == Parse(a, kind) + Parse(b, kind)
    decreases |b|
  {
    if b == [] {
      assert a + b == a;
    } else {
      var b' := b[..|b| - 1];
      assert (a + b)[..|a + b| - 1] == a + b';
      assert (a + b)[|a + b| - 1] == b[|b| - 1];
      ParseAppend(a, b', kind);
    }
  }

  /** The records one line contributes: its record, or none. */
  function Accepted(line: string, kind: Kind): (recs: seq<Rec>)
    ensures |recs| <= 1
  {
    match ParseLine(line, kind)
    case Some(r) => [r]
    case None => []
  }

  /** The loop's step: the first `i + 1` lines give the records of the
      first `i` and those of line `i`. */
  lemma ParsePrefix(lines: seq<string>, i: nat, kind: Kind)
    requires i < |lines|
    ensures Parse(lines[..i + 1], kind) == Parse(lines[..i], kind) + Accepted(lines[i], kind)
  {
    assert lines[..i + 1][..i] == lines[..i];
  }

  /** How a record is printed by `pacman -Qu` or `yay -Qua`. */
  function RenderLine(r: Rec): string {
    UpdateLine(r.name, r.current, r.newVersion)
  }

  /** A record whose three fields are whitespace-free tokens. */
  predicate Renderable(r: Rec) {
    IsToken(r.name) && IsToken(r.current) && IsToken(r.newVersion)
  }

  /** A printed record holds no newline and starts and ends with
      non-whitespace. */
  lemma RenderLineShape(r: Rec)
    requires Renderable(r)
    ensures var line := RenderLine(r);
      && '\n' !in line
      && line != [] && !IsSpace(line[0]) && !IsSpace(line[|line| - 1])
  {
    NoNewline(r.name);
    NoNewline(r.current);
    NoNewline(r.newVersion);
    var line := RenderLine(r);
    assert line == r.name + (" " + r.current + " -> " + r.newVersion);
    assert line[0] == r.name[0];
    assert line[|line| - 1] == r.newVersion[|r.newVersion| - 1];
  }

  /** Parsing inverts printing: the output of one update line per record,
      joined with newlines, parses back to exactly those records. */
  lemma ParseRendered(recs: seq<Rec>, kind: Kind)
    requires forall r :: r in recs ==> Renderable(r) && r.kind == kind
    ensures Parse(Lines(Join(Map(RenderLine, recs), '\n')), kind) == recs
  {
    if recs == [] {
      ParseBlankOutput("", kind);
      return;
    }
    var lines := Map(RenderLine, recs);
    forall i | 0 <= i < |lines|
      ensures '\n' !in lines[i] && lines[i] != []
      ensures !IsSpace(lines[i][0]) && !IsSpace(lines[i][|lines[i]| - 1])
      ensures ParseLine(lines[i], kind).Some? && ParseLine(lines[i], kind).value == recs[i]
    {
      var r := recs[i];
      assert r in recs;
      RenderLineShape(r);
      ParseLineWellFormed(r.name, r.current, r.newVersion, [], kind);
      assert RenderLine(r) + [] == RenderLine(r);
    }
    var out := Join(lines, '\n');
    JoinEnds(lines, '\n');
    StripUnchanged(out);
    SplitJoin(lines, '\n');
    assert Lines(out) == lines;
    ParseAllAccepted(lines, kind);
  }

  /** Output that is empty or only whitespace, which is also what a failed
      or missing command leaves, gives no records. */
  lemma ParseBlankOutput(stdout: string, kind: Kind)
    requires AllSpace(stdout)
    ensures Lines(stdout) == [""]
    ensures Parse(Lines(stdout), kind) == []
  {
    StripSpec(stdout);
    assert Strip("") == [];
    assert Parse([""], kind) == Parse([], kind);
  }

  /** The number of lines whose `strip()` is non-empty. */
  function NonBlankCount(lines: seq<string>): nat
  {
    if lines == [] then 0
    else NonBlankCount(lines[..|lines| - 1]) + (if Strip(lines[|lines| - 1]) == [] then 0 else 1)
  }

  /** Every record comes from a distinct non-blank line. */
  lemma {:induction false} ParseBound(lines: seq<string>, kind: Kind)
    ensures |Parse(lines, kind)| <= NonBlankCount(lines)
  {
    if lines != [] {
      ParseBound(lines[..|lines| - 1], kind);
    }
  }

  /** Output made only of well-formed lines gives one record per line. */
  lemma {:induction false} ParseAllAccepted(lines: seq<string>, kind: Kind)
    requires forall i :: 0 <= i < |lines| ==> ParseLine(lines[i], kind).Some?
    ensures |Parse(lines, kind)| == |lines|
    ensures forall i :: 0 <= i < |lines| ==> Parse(lines, kind)[i] == ParseLine(lines[i], kind).value
  {
    if lines != [] {
      var init := lines[..|lines| - 1];
      ParseAllAccepted(init, kind);
      var last := ParseLine(lines[|lines| - 1], kind).value;
      ParseAcceptedLast(lines, kind);
      var recs := Parse(lines, kind);
      assert recs == Parse(init, kind) + [last];
      forall i | 0 <= i < |lines| ensures recs[i] == ParseLine(lines[i], kind).value {
        if i < |init| {
          assert recs[i] == Parse(init, kind)[i];
          assert init[i] == lines[i];
        } else {
          assert recs[i] == last;
        }
      }
    }
  }

  /** An accepted last line contributes the last record. */
  lemma ParseAcceptedLast(lines: seq<string>, kind: Kind)
    requires lines != [] && ParseLine(lines[|lines| - 1], kind).Some?
    ensures Parse(lines, kind) ==
      Parse(lines[..|lines| - 1], kind) + [ParseLine(lines[|lines| - 1], kind).value]
  {
  }

  /** `_identify_nvidia_pkg` applied to a record's name. */
  predicate IsNvidiaRec(r: Rec) {
    IsNvidia(r.name)
  }

  /** The copies appended to `nvidia_updates` while parsing `recs`: one per
      flagged record, in order, always with type `"official"`. */
  function NvidiaCopies(recs: seq<Rec>): (nv: seq<Rec>)
    ensures |nv| <= |recs|
  {
    if recs == [] then []
    else
      var last := recs[|recs| - 1];
      NvidiaCopies(recs[..|recs| - 1])
      + (if IsNvidia(last.name) then [WithKind(last, Official)] else [])
  }

  /** A single record has a copy exactly when its name is flagged. */
  lemma NvidiaCopiesOne(r: Rec)
    ensures NvidiaCopies([r]) == if IsNvidia(r.name) then [WithKind(r, Official)] else []
  {
    assert [r][..0] == [];
  }

  /** One more record adds its copy when its name is flagged. */
  lemma NvidiaCopiesSnoc(recs: seq<Rec>, r: Rec)
    ensures NvidiaCopies(recs + [r]) ==
      NvidiaCopies(recs) + (if IsNvidia(r.name) then [WithKind(r, Official)] else [])
  {
    assert (recs + [r])[..|recs|] == recs;
  }

  /** Every copy is typed `"official"` and carries a flagged name. */
  lemma {:induction false} NvidiaCopiesFlagged(recs: seq<Rec>)
    ensures forall r :: r in NvidiaCopies(recs) ==> r.kind == Official && IsNvidia(r.name)
  {
    if recs != [] {
      NvidiaCopiesFlagged(recs[..|recs| - 1]);
    }
  }

  /** The copies of two blocks of records are those of the first followed
      by those of the second. */
  lemma {:induction false} NvidiaCopiesAppend(a: seq<Rec>, b: seq<Rec>)
    ensures NvidiaCopies(a + b) == NvidiaCopies(a) + NvidiaCopies(b)
    decreases |b|
  {
    if b == [] {
      assert a + b == a;
    } else {
      var b' := b[..|b| - 1];
      var r := b[|b| - 1];
      assert a + b == (a + b') + [r];
      assert b == b' + [r];
      NvidiaCopiesAppend(a, b');
      NvidiaCopiesSnoc(a + b', r);
      NvidiaCopiesSnoc(b', r);
    }
  }

  /** For official records the copies are the flagged records themselves. */
  lemma {:induction false} NvidiaCopiesOfOfficial(recs: seq<Rec>)
    requires forall r :: r in recs ==> r.kind == Official
    ensures NvidiaCopies(recs) == Filter(IsNvidiaRec, recs)
  {
    if recs != [] {
      var init := recs[..|recs| - 1];
      assert forall r :: r in init ==> r in recs;
      NvidiaCopiesOfOfficial(init);
      assert recs[|recs| - 1] in recs;
    }
  }

  /** Every copy comes from a flagged record of `recs`, and every flagged
      record has its copy. */
  lemma {:induction false} NvidiaCopiesMembers(recs: seq<Rec>, k: Kind)
    requires forall r :: r in recs ==> r.kind == k
    ensures forall x :: x in NvidiaCopies(recs) ==> WithKind(x, k) in recs
    ensures forall r :: r in recs && IsNvidia(r.name) ==> WithKind(r, Official) in NvidiaCopies(recs)
  {
    if recs != [] {
      var init := recs[..|recs| - 1];
      var last := recs[|recs| - 1];
      assert recs == init + [last];
      assert forall r :: r in init ==> r in recs;
      NvidiaCopiesMembers(init, k);
      assert last in recs;
      var nv := NvidiaCopies(recs);
      assert nv == NvidiaCopies(init)
        + (if IsNvidia(last.name) then [WithKind(last, Official)] else []);
      forall x | x in nv ensures WithKind(x, k) in recs {
        if x !in NvidiaCopies(init) {
          assert x == WithKind(last, Official);
          assert WithKind(x, k) == last;
        }
      }
      forall r | r in recs && IsNvidia(r.name) ensures WithKind(r, Official) in nv {
        if r !in init {
          assert r == last;
        }
      }
    }
  }

  /** What holds of the three lists of the checker at all times: official
      records have type `"official"`, AUR records type `"aur"`, every
      `nvidia_updates` entry is a flagged `"official"` copy of a record of
      one of the two lists, and every flagged record has its copy there. */
  ghost predicate Consistent(official: seq<Rec>, aur: seq<Rec>, nvidia: seq<Rec>) {
    (forall r :: r in official ==> r.kind == Official) &&
    (forall r :: r in aur ==> r.kind == Aur) &&
    (forall r :: r in nvidia ==>
      r.kind == Official && IsNvidia(r.name) && (r in official || WithKind(r, Aur) in aur)) &&
    (forall r :: r in official && IsNvidia(r.name) ==> r in nvidia) &&
    (forall r :: r in aur && IsNvidia(r.name) ==> WithKind(r, Official) in nvidia)
  }

  /** Appending parsed official records and their copies keeps the lists consistent. */
  lemma ConsistentAddOfficial(official: seq<Rec>, aur: seq<Rec>, nvidia: seq<Rec>, recs: seq<Rec>)
    requires Consistent(official, aur, nvidia)
    requires forall r :: r in recs ==> r.kind == Official
    ensures Consistent(official + recs, aur, nvidia + NvidiaCopies(recs))
  {
    NvidiaCopiesFlagged(recs);
    NvidiaCopiesMembers(recs, Official);
  }

  /** Appending parsed AUR records and their copies keeps the lists consistent. */
  lemma ConsistentAddAur(official: seq<Rec>, aur: seq<Rec>, nvidia: seq<Rec>, recs: seq<Rec>)
    requires Consistent(official, aur, nvidia)
    requires forall r :: r in recs ==> r.kind == Aur
    ensures Consistent(official, aur + recs, nvidia + NvidiaCopies(recs))
  {
    NvidiaCopiesFlagged(recs);
    NvidiaCopiesMembers(recs, Aur);
  }

  /** An official record is in `nvidia_updates` exactly when its name is flagged. */
  lemma OfficialInNvidiaIff(official: seq<Rec>, aur: seq<Rec>, nvidia: seq<Rec>, r: Rec)
    requires Consistent(official, aur, nvidia)
    requires r in official
    ensures r in nvidia <==> IsNvidia(r.name)
  {
  }

  /** No AUR record is ever in `nvidia_updates`: the copies have type `"official"`. */
  lemma AurNeverInNvidia(official: seq<Rec>, aur: seq<Rec>, nvidia: seq<Rec>, r: Rec)
    requires Consistent(official, aur, nvidia)
    requires r in aur
    ensures r !in nvidia
  {
  }

  /** `nvidia_updates` is non-empty exactly when some official or AUR
      package is flagged. */
  lemma NvidiaNonEmptyIff(official: seq<Rec>, aur: seq<Rec>, nvidia: seq<Rec>)
    requires Consistent(official, aur, nvidia)
    ensures nvidia != [] <==>
      (exists r :: r in official && IsNvidia(r.name)) || (exists r :: r in aur && IsNvidia(r.name))
  {
    if nvidia != [] {
      var x := nvidia[0];
      if x !in official {
        assert WithKind(x, Aur) in aur;
      }
    }
    if exists r :: r in aur && IsNvidia(r.name) {
      var r :| r in aur && IsNvidia(r.name);
      assert WithKind(r, Official) in nvidia;
    }
  }
}
