/** The NVIDIA package classifier: nine regular expressions, each anchored at
    the start of the name and each either a literal prefix or a literal
    followed by `$`. */
module Nvidia {

  /** `^lit$` or `^lit`. Python's `$` also matches just before a final
      newline, so `^lit$` accepts `lit` and `lit` followed by `"\n"`. */
  datatype Pattern = Exact(lit: string) | Prefix(lit: string)

  /** `re.match(pattern, name)` succeeds. */
  predicate Matches(p: Pattern, name: string) {
    match p
    case Exact(lit) => name == lit || name == lit + "\n"
    case Prefix(lit) => lit <= name
  }

  /** The patterns, in source order. */
  const Patterns: seq<Pattern> := [
    Exact("nvidia"),
    Prefix("nvidia-"),
    Exact("nvidia-lts"),
    Exact("nvidia-dkms"),
    Prefix("nvidia-utils"),
    Prefix("lib32-nvidia-utils"),
    Prefix("cuda"),
    Prefix("opencl-nvidia"),
    Prefix("nvidia-settings")
  ]

  /** `any(re.match(p, name) for p in patterns)`. */
  predicate AnyMatches(ps: seq<Pattern>, name: string) {
    if ps == [] then false else Matches(ps[0], name) || AnyMatches(ps[1..], name)
  }

  /** `_identify_nvidia_pkg(name)`. */
  predicate IsNvidia(name: string) {
    AnyMatches(Patterns, name)
  }

  /** `any` over a list: some pattern of the list matches. */
  lemma {:induction false} AnyMatchesSome(ps: seq<Pattern>, name: string)
    ensures AnyMatches(ps, name) <==> exists i :: 0 <= i < |ps| && Matches(ps[i], name)
  {
    if ps != [] {
      AnyMatchesSome(ps[1..], name);
      if Matches(ps[0], name) {
        assert 0 < |ps| && Matches(ps[0], name);
      }
      if exists i :: 0 <= i < |ps| && Matches(ps[i], name) {
        var i :| 0 <= i < |ps| && Matches(ps[i], name);
        if i > 0 {
          assert ps[1..][i - 1] == ps[i];
        }
      }
    }
  }

  /** A longer literal prefix implies the shorter one it starts with. */
  lemma PrefixOfPrefix(short: string, long: string, name: string)
    requires short <= long && long <= name
    ensures short <= name
  {
    assert name[..|short|] == long[..|short|];
  }

  /** The classifier in closed form: the `nvidia-lts`, `nvidia-dkms`,
      `nvidia-utils` and `nvidia-settings` patterns add nothing to `^nvidia-`. */
  lemma IsNvidiaIff(name: string)
    ensures IsNvidia(name) <==>
      name == "nvidia" || name == "nvidia\n" ||
      "nvidia-" <= name || "cuda" <= name || "opencl-nvidia" <= name ||
      "lib32-nvidia-utils" <= name
  {
    AnyMatchesSome(Patterns, name);
    if Matches(Patterns[2], name) {
      PrefixOfPrefix("nvidia-", "nvidia-lts", name);
    }
    if Matches(Patterns[3], name) {
      PrefixOfPrefix("nvidia-", "nvidia-dkms", name);
    }
    if Matches(Patterns[4], name) {
      PrefixOfPrefix("nvidia-", "nvidia-utils", name);
    }
    if Matches(Patterns[8], name) {
      PrefixOfPrefix("nvidia-", "nvidia-settings", name);
    }
    if "nvidia-" <= name {
      assert Matches(Patterns[1], name);
    }
    if name == "nvidia" || name == "nvidia\n" {
      assert Matches(Patterns[0], name);
    }
    if "cuda" <= name {
      assert Matches(Patterns[6], name);
    }
    if "opencl-nvidia" <= name {
      assert Matches(Patterns[7], name);
    }
    if "lib32-nvidia-utils" <= name {
      assert Matches(Patterns[5], name);
    }
  }

  /** For package names as the parser produces them (no newline), the
      package is flagged exactly when it is `nvidia` or starts with `nvidia-`,
      `cuda`, `opencl-nvidia` or `lib32-nvidia-utils`. */
  lemma IsNvidiaToken(name: string)
    requires '\n' !in name
    ensures IsNvidia(name) <==>
      name == "nvidia" || "nvidia-" <= name || "cuda" <= name ||
      "opencl-nvidia" <= name || "lib32-nvidia-utils" <= name
  {
    IsNvidiaIff(name);
  }

  /** Flagged names. */
  lemma IsNvidiaFlags()
    ensures IsNvidia("nvidia") && IsNvidia("nvidia-utils") && IsNvidia("cuda-tools")
    ensures IsNvidia("lib32-nvidia-utils") && IsNvidia("opencl-nvidia-470")
  {
    IsNvidiaIff("nvidia");
    IsNvidiaIff("nvidia-utils");
    IsNvidiaIff("cuda-tools");
    IsNvidiaIff("lib32-nvidia-utils");
    IsNvidiaIff("opencl-nvidia-470");
  }

  /** A literal is not a prefix of a name that differs from it at some position. */
  lemma NotPrefixAt(lit: string, name: string, i: nat)
    requires i < |lit| && (i >= |name| || lit[i] != name[i])
    ensures !(lit <= name)
  {
  }

  /** A name starting with none of the first letters of the patterns is not flagged. */
  lemma NotFlaggedByFirstLetter(name: string)
    requires name != [] && name[0] != 'n' && name[0] != 'c' && name[0] != 'o' && name[0] != 'l'
    ensures !IsNvidia(name)
  {
    IsNvidiaIff(name);
  }

  /** Matching is case-sensitive. */
  lemma IsNvidiaCaseSensitive()
    ensures !IsNvidia("NVIDIA") && !IsNvidia("Nvidia-utils") && !IsNvidia("CUDA")
  {
    NotFlaggedByFirstLetter("NVIDIA");
    NotFlaggedByFirstLetter("Nvidia-utils");
    NotFlaggedByFirstLetter("CUDA");
  }

  /** Unrelated packages are not flagged. */
  lemma IsNvidiaUnrelated()
    ensures !IsNvidia("firefox") && !IsNvidia("mesa")
  {
    NotFlaggedByFirstLetter("firefox");
    NotFlaggedByFirstLetter("mesa");
  }

  /** A name starting with `l` is flagged only through `^lib32-nvidia-utils`. */
  lemma NotFlaggedUnlessLib32(name: string)
    requires name != [] && name[0] == 'l' && !("lib32-nvidia-utils" <= name)
    ensures !IsNvidia(name)
  {
    IsNvidiaIff(name);
  }

  /** Matching is anchored at the start of the name: a pattern literal
      further inside the name does not count, even when the name starts
      like another pattern. No name that starts with `libnvidia`,
      `lib32-cuda`, `python-cuda` or `egl-nvidia` is flagged. */
  lemma IsNvidiaAnchored(suffix: string)
    ensures !IsNvidia("libnvidia" + suffix) && !IsNvidia("lib32-cuda" + suffix)
    ensures !IsNvidia("python-cuda" + suffix) && !IsNvidia("egl-nvidia" + suffix)
  {
    NotPrefixAt("lib32-nvidia-utils", "libnvidia" + suffix, 3);
    NotFlaggedUnlessLib32("libnvidia" + suffix);
    NotPrefixAt("lib32-nvidia-utils", "lib32-cuda" + suffix, 6);
    NotFlaggedUnlessLib32("lib32-cuda" + suffix);
    NotFlaggedByFirstLetter("python-cuda" + suffix);
    NotFlaggedByFirstLetter("egl-nvidia" + suffix);
  }

  /** Near misses of the exact and prefix patterns are not flagged. */
  lemma IsNvidiaRejectsNearMisses()
    ensures !IsNvidia("nvidiax") && !IsNvidia("lib32-nvidia")
  {
    IsNvidiaIff("nvidiax");
    NotPrefixAt("nvidia-", "nvidiax", 6);
    NotPrefixAt("cuda", "nvidiax", 0);
    NotPrefixAt("opencl-nvidia", "nvidiax", 0);
    NotPrefixAt("lib32-nvidia-utils", "nvidiax", 0);
    IsNvidiaIff("lib32-nvidia");
    NotPrefixAt("lib32-nvidia-utils", "lib32-nvidia", 12);
    NotPrefixAt("cuda", "lib32-nvidia", 0);
    NotPrefixAt("opencl-nvidia", "lib32-nvidia", 0);
    NotPrefixAt("nvidia-", "lib32-nvidia", 0);
  }
}
