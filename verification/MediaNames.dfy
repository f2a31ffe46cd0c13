/** Names for uploaded audio: extensions stripped, and a free name found. */
module MediaNames {
  import opened Prelude
  import opened Text
  import opened Decimal

  const ALLOWED_AUDIO_EXTENSIONS: set<string> :=
    {".aac", ".flac", ".m4a", ".mp3", ".mp4", ".oga", ".ogg", ".wav", ".webm"}

  // ---------- the base name ----------

  /** The last dot of a name, or -1. */
  function LastDot(s: string): (r: int)
    ensures -1 <= r < |s|
    ensures r >= 0 ==> s[r] == '.' && forall j | r < j < |s| :: s[j] != '.'
    ensures r < 0 ==> forall j | 0 <= j < |s| :: s[j] != '.'
  {
    if s == "" then -1
    else if s[|s| - 1] == '.' then |s| - 1
    else LastDot(s[..|s| - 1])
  }

  /** The last dot and what follows it, if anything does. */
  function Extension(s: string): string {
    var dot := LastDot(s);
    if 0 <= dot < |s| - 1 then s[dot..] else ""
  }

  predicate HasAudioExtension(s: string) {
    Extension(s) != "" && Lower(Extension(s)) in ALLOWED_AUDIO_EXTENSIONS
  }

  /** A name has an audio extension exactly if, in lower case, it ends with one of these nine. */
  lemma AudioExtensionExactly(s: string)
    ensures HasAudioExtension(s) <==>
      exists n ::
        0 <= n < |s| && s[n] == '.'
        && Lower(s[n..]) in {".aac", ".flac", ".m4a", ".mp3", ".mp4", ".oga", ".ogg", ".wav", ".webm"}
  {
    var dot := LastDot(s);
    if n :| 0 <= n < |s| && s[n] == '.' && Lower(s[n..]) in ALLOWED_AUDIO_EXTENSIONS {
      assert |Lower(s[n..])| == |s| - n;
      forall j | n < j < |s| ensures s[j] != '.' {
        assert Lower(s[n..])[j - n] == LowerChar(s[j]);
      }
      assert dot == n;
    }
  }

  function WithoutExtension(s: string): string {
    Trim(s[..|s| - |Extension(s)|])
  }

  lemma ShorterWithout(s: string)
    requires HasAudioExtension(s)
    ensures |WithoutExtension(s)| < |s|
  {
    TrimIsTrimmed(s[..|s| - |Extension(s)|]);
  }

  /** What is left of a trimmed name when audio extensions are taken off until none is left. */
  function Bare(s: string): string
    decreases |s|
  {
    if HasAudioExtension(s) then ShorterWithout(s); Bare(WithoutExtension(s)) else s
  }

  lemma ExtensionOf(base: string, extension: string)
    requires Lower(extension) in ALLOWED_AUDIO_EXTENSIONS
    ensures Extension(base + extension) == extension && HasAudioExtension(base + extension)
  {
    var s, n := base + extension, |base|;
    var low := Lower(extension);
    assert |low| == |extension| > 1 && low[0] == '.';
    assert low[0] == LowerChar(extension[0]);
    forall j | n < j < |s| ensures s[j] != '.' {
      assert low[j - n] == LowerChar(s[j]) && low[j - n] != '.';
    }
    assert s[n] == '.' && s[n..] == extension;
    assert LastDot(s) == n;
  }

  /** Taking an extension off gives back the name it was put on, in any case of letters, and nothing more goes. */
  lemma ExtensionComesOff(base: string, extension: string)
    requires base != "" && Trimmed(base) && !HasAudioExtension(base)
    requires Lower(extension) in
      {".aac", ".flac", ".m4a", ".mp3", ".mp4", ".oga", ".ogg", ".wav", ".webm"}
    ensures Bare(base + extension) == base && Bare(base) == base
  {
    ExtensionOf(base, extension);
    var s := base + extension;
    assert s[..|s| - |Extension(s)|] == base;
    TrimChangesExactly(base);
  }

  method GetSafeMediaBaseName(mediaName: string) returns (name: Option<string>)
    ensures name == if Bare(Trim(mediaName)) == "" then None else Some(Bare(Trim(mediaName)))
  {
    var trimmed := Trim(mediaName);
    if |trimmed| == 0 {
      return None;
    }
    var baseName, stripped := trimmed, true;
    while stripped
      invariant Bare(baseName) == Bare(trimmed)
      invariant stripped || !HasAudioExtension(baseName)
      decreases |baseName|, stripped
    {
      stripped := false;
      var extension := Lower(Extension(baseName));
      if |extension| == 0 || extension !in ALLOWED_AUDIO_EXTENSIONS {
        continue;
      }
      ShorterWithout(baseName);
      baseName := Trim(baseName[..|baseName| - |extension|]);
      if |baseName| == 0 {
        break;
      }
      stripped := true;
    }
    name := if |baseName| == 0 then None else Some(baseName);
  }

  lemma TrimOfPrefix(s: string, n: nat)
    requires Trimmed(s) && n <= |s|
    ensures Trim(s[..n]) <= s
  {
    TrimStartFacts(s[..n]);
    TrimEndFacts(TrimStart(s[..n]));
    if n > 0 {
      assert s[..n][0] == s[0];
      assert TrimStart(s[..n]) == s[..n];
    }
  }

  /** The bare name is trimmed, carries no audio extension, and is how the given name begins. */
  lemma {:induction false} BareIsClean(s: string)
    requires Trimmed(s)
    ensures Trimmed(Bare(s)) && !HasAudioExtension(Bare(s)) && Bare(s) <= s
    decreases |s|
  {
    if HasAudioExtension(s) {
      ShorterWithout(s);
      TrimIsTrimmed(s[..|s| - |Extension(s)|]);
      TrimOfPrefix(s, |s| - |Extension(s)|);
      BareIsClean(WithoutExtension(s));
    }
  }

  /** A safe name is its own safe name. */
  lemma SafeNameStays(mediaName: string)
    ensures Bare(Trim(Bare(Trim(mediaName)))) == Bare(Trim(mediaName))
  {
    TrimIsTrimmed(mediaName);
    BareIsClean(Trim(mediaName));
    TrimChangesExactly(Bare(Trim(mediaName)));
  }

  // ---------- a free name ----------

  function Candidate(base: string, suffix: nat): string {
    base + "-" + Decimal.Decimal(suffix)
  }

  /** Lower-casing leaves the suffix and what it is attached to apart. */
  ghost predicate LowersSuffixed(lower: string -> string) {
    forall s, n :: lower(Candidate(s, n)) == Candidate(lower(s), n)
  }

  function TakenNames(lower: string -> string, taken: seq<string>): set<string> {
    set t | t in taken :: lower(Trim(t))
  }

  /** The name and its candidates up to a suffix. */
  function Tried(base: string, suffix: nat): set<string> {
    if suffix < 2 then {base} else Tried(base, suffix - 1) + {Candidate(base, suffix)}
  }

  lemma CandidateInjective(base: string, m: nat, n: nat)
    requires Candidate(base, m) == Candidate(base, n)
    ensures m == n
  {
    assert Candidate(base, m)[|base| + 1..] == Decimal.Decimal(m);
    assert Candidate(base, n)[|base| + 1..] == Decimal.Decimal(n);
    DecimalInjective(m, n);
  }

  lemma {:induction false} TriedMembers(base: string, suffix: nat, x: string)
    ensures x in Tried(base, suffix) <==> x == base || exists n :: 2 <= n <= suffix && x == Candidate(base, n)
  {
    if suffix >= 2 {
      TriedMembers(base, suffix - 1, x);
    }
  }

  lemma {:induction false} TriedCount(base: string, suffix: nat)
    requires suffix >= 1
    ensures |Tried(base, suffix)| == suffix
  {
    if suffix >= 2 {
      TriedCount(base, suffix - 1);
      TriedMembers(base, suffix - 1, Candidate(base, suffix));
      if Candidate(base, suffix) in Tried(base, suffix - 1) && Candidate(base, suffix) != base {
        var n :| 2 <= n <= suffix - 1 && Candidate(base, suffix) == Candidate(base, n);
        CandidateInjective(base, suffix, n);
      }
      assert |Candidate(base, suffix)| > |base|;
    }
  }

  lemma SubsetSize<A>(s: set<A>, t: set<A>)
    requires s <= t
    ensures |s| <= |t|
  {
    assert t == s + (t - s);
  }

  /** Distinct candidates that are all taken are at most as many as the taken names. */
  lemma TakenCandidatesBounded(base: string, taken: set<string>, suffix: nat)
    requires suffix >= 1 && base in taken
    requires forall n | 2 <= n <= suffix :: Candidate(base, n) in taken
    ensures suffix <= |taken|
  {
    forall x | x in Tried(base, suffix) ensures x in taken {
      TriedMembers(base, suffix, x);
    }
    TriedCount(base, suffix);
    SubsetSize(Tried(base, suffix), taken);
  }

  /**
   * The search for a free name ends: the suffix is the least free one and at most the number of
   * taken names plus one.
   */
  method ResolveAvailableBaseName(lower: string -> string, desired: string, taken: seq<string>)
    returns (name: string, ghost suffix: nat)
    requires LowersSuffixed(lower)
    ensures forall t | t in taken :: lower(Trim(t)) != lower(name)
    ensures lower(desired) !in TakenNames(lower, taken) ==> name == desired && suffix == 0
    ensures lower(desired) in TakenNames(lower, taken) ==>
      && 2 <= suffix <= |TakenNames(lower, taken)| + 1
      && name == desired + "-" + Decimal.Decimal(suffix)
      && forall n | 2 <= n < suffix :: exists t :: t in taken && lower(Trim(t)) == lower(Candidate(desired, n))
  {
    var takenLower := TakenNames(lower, taken);
    suffix := 0;
    if lower(desired) !in takenLower {
      return desired, 0;
    }
    var at := 2;
    TakenCandidatesBounded(lower(desired), takenLower, 1);
    while lower(Candidate(desired, at)) in takenLower
      invariant 2 <= at <= |takenLower| + 1
      invariant forall n | 2 <= n < at :: lower(Candidate(desired, n)) in takenLower
      decreases |takenLower| + 1 - at
    {
      forall n | 2 <= n <= at ensures Candidate(lower(desired), n) in takenLower {
        assert lower(Candidate(desired, n)) in takenLower;
      }
      TakenCandidatesBounded(lower(desired), takenLower, at);
      at := at + 1;
    }
    suffix := at;
    name := Candidate(desired, at);
  }
}
