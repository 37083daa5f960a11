/**
 * Vault-relative paths (src/kernel/path-policy.ts) and the POSIX path operations they use. A path
 * is a string; its segments are what stands between the slashes.
 */
module VaultPath {
  import opened Options
  import opened JsText

  function Split(s: string): (segments: seq<string>)
    ensures |segments| >= 1
  {
    if s == "" then [""]
    else if s[0] == '/' then [""] + Split(s[1..])
    else
      var rest := Split(s[1..]);
      [[s[0]] + rest[0]] + rest[1..]
  }

  function Join(segments: seq<string>): string
    requires segments != []
  {
    if |segments| == 1 then segments[0] else segments[0] + "/" + Join(segments[1..])
  }

  /** A segment that names one entry: not empty, not `.` or `..`, and free of separators. */
  predicate Plain(segment: string) {
    segment != "" && segment != "." && segment != ".." && '/' !in segment && '\\' !in segment && '\0' !in segment
  }

  predicate AllPlain(segments: seq<string>) {
    segments != [] ==> Plain(segments[0]) && AllPlain(segments[1..])
  }

  lemma {:induction false} JoinSplit(s: string)
    ensures Join(Split(s)) == s
    decreases |s|
  {
    if s != "" {
      JoinSplit(s[1..]);
      var rest := Split(s[1..]);
      if s[0] != '/' && |rest| > 1 {
        assert Join(rest) == rest[0] + "/" + Join(rest[1..]);
      }
    }
  }

  lemma {:induction false} SplitFirst(a: string, b: string)
    requires '/' !in a
    ensures Split(a + "/" + b) == [a] + Split(b)
    decreases |a|
  {
    if a == "" {
      assert (a + "/" + b)[1..] == b;
    } else {
      assert (a + "/" + b)[1..] == a[1..] + "/" + b && [a[0]] + a[1..] == a;
      SplitFirst(a[1..], b);
    }
  }

  lemma {:induction false} SplitSingle(a: string)
    requires '/' !in a
    ensures Split(a) == [a]
    decreases |a|
  {
    if a != "" {
      assert [a[0]] + a[1..] == a;
      SplitSingle(a[1..]);
    }
  }

  lemma {:induction false} SplitJoin(segments: seq<string>)
    requires segments != [] && forall s :: s in segments ==> '/' !in s
    ensures Split(Join(segments)) == segments
    decreases |segments|
  {
    if |segments| == 1 {
      SplitSingle(segments[0]);
    } else {
      SplitJoin(segments[1..]);
      SplitFirst(segments[0], Join(segments[1..]));
    }
  }

  lemma {:induction false} PlainHasNoSlash(segments: seq<string>)
    requires AllPlain(segments)
    ensures forall s :: s in segments ==> Plain(s)
    decreases |segments|
  {
    if segments != [] {
      PlainHasNoSlash(segments[1..]);
    }
  }

  lemma {:induction false} PlainConcat(a: seq<string>, b: seq<string>)
    ensures AllPlain(a + b) <==> AllPlain(a) && AllPlain(b)
    decreases |a|
  {
    if a == [] {
      assert a + b == b;
    } else {
      assert (a + b)[1..] == a[1..] + b;
      PlainConcat(a[1..], b);
    }
  }

  // ---------- POSIX normalization ----------

  /** Resolves `.`, `..` and empty segments against the segments already kept. */
  function Resolve(segments: seq<string>, kept: seq<string>, aboveRoot: bool): seq<string>
    decreases |segments|
  {
    if segments == [] then kept
    else if segments[0] == "" || segments[0] == "." then Resolve(segments[1..], kept, aboveRoot)
    else if segments[0] == ".." then
      if kept != [] && kept[|kept| - 1] != ".." then Resolve(segments[1..], kept[..|kept| - 1], aboveRoot)
      else Resolve(segments[1..], if aboveRoot then kept + [".."] else kept, aboveRoot)
    else Resolve(segments[1..], kept + [segments[0]], aboveRoot)
  }

  function PosixNormalize(path: string): string {
    if path == "" then "."
    else
      var absolute := path[0] == '/';
      var trailing := path[|path| - 1] == '/';
      var kept := Resolve(Split(path), [], !absolute);
      if kept == [] then if absolute then "/" else if trailing then "./" else "."
      else (if absolute then "/" else "") + Join(kept) + (if trailing then "/" else "")
  }

  function PosixJoin(directory: string, path: string): string {
    PosixNormalize(directory + "/" + path)
  }

  /** The folder segments of a normalized path. */
  function DirSegments(path: string): seq<string> {
    var segments := Split(path);
    segments[..|segments| - 1]
  }

  function Dirname(path: string): string {
    if DirSegments(path) == [] then "." else Join(DirSegments(path))
  }

  function Up(n: nat): (r: seq<string>)
    ensures |r| == n && forall s :: s in r ==> s == ".."
  {
    if n == 0 then [] else [".."] + Up(n - 1)
  }

  /** The segments that lead from folder `from` to `to`. */
  function RelativeSegments(from: seq<string>, to: seq<string>): seq<string>
    decreases |from|
  {
    if from != [] && to != [] && from[0] == to[0] then RelativeSegments(from[1..], to[1..])
    else Up(|from|) + to
  }

  function PosixRelative(fromDirectory: seq<string>, toPath: string): string {
    var segments := RelativeSegments(fromDirectory, Split(toPath));
    if segments == [] then "" else Join(segments)
  }

  // ---------- the vault path policy ----------

  function Portable(s: string): (r: string)
    ensures |r| == |s|
  {
    if s == "" then "" else [if s[0] == '\\' then '/' else s[0]] + Portable(s[1..])
  }

  /** A leading drive such as `C:/`, which the policy rejects as absolute. */
  predicate DriveAbsolute(s: string) {
    |s| > 2 && IsLetter(s[0]) && s[1] == ':' && (s[2] == '/' || s[2] == '\\')
  }

  function NormalizeVaultPath(input: string): Option<string> {
    if input == "" || '\0' in input then None
    else if input[0] == '/' || input[0] == '\\' || DriveAbsolute(input) then None
    else
      var portable := Portable(input);
      if EndsWith(portable, "/") || ".." in Split(portable) then None
      else
        var normalized := PosixNormalize(portable);
        var stripped := if StartsWith(normalized, "./") then normalized[2..] else normalized;
        if stripped == "." || StartsWith(stripped, "../") then None else Some(stripped)
  }

  /** The form every accepted path has: plain segments. */
  predicate IsVaultPath(s: string) {
    AllPlain(Split(s))
  }

  lemma {:induction false} PortableIsPlain(s: string)
    requires '\0' !in s
    ensures '\\' !in Portable(s) && '\0' !in Portable(s)
    ensures '\\' !in s ==> Portable(s) == s
    decreases |s|
  {
    if s != "" {
      PortableIsPlain(s[1..]);
    }
  }

  lemma {:induction false} SplitChars(s: string)
    requires '\\' !in s && '\0' !in s
    ensures forall x :: x in Split(s) ==> '/' !in x && '\\' !in x && '\0' !in x
    decreases |s|
  {
    if s != "" {
      SplitChars(s[1..]);
    }
  }

  lemma {:induction false} ResolveKeepsPlain(segments: seq<string>, kept: seq<string>, aboveRoot: bool)
    requires AllPlain(kept) && ".." !in segments
    requires forall x :: x in segments ==> '/' !in x && '\\' !in x && '\0' !in x
    ensures AllPlain(Resolve(segments, kept, aboveRoot))
    decreases |segments|
  {
    if segments != [] {
      assert segments[0] in segments && forall x :: x in segments[1..] ==> x in segments;
      if segments[0] == "" || segments[0] == "." {
        ResolveKeepsPlain(segments[1..], kept, aboveRoot);
      } else {
        PlainConcat(kept, [segments[0]]);
        ResolveKeepsPlain(segments[1..], kept + [segments[0]], aboveRoot);
      }
    }
  }

  lemma {:induction false} ResolvePlain(segments: seq<string>, kept: seq<string>, aboveRoot: bool)
    requires AllPlain(segments)
    ensures Resolve(segments, kept, aboveRoot) == kept + segments
    decreases |segments|
  {
    if segments == [] {
      assert kept + segments == kept;
    } else {
      ResolvePlain(segments[1..], kept + [segments[0]], aboveRoot);
      assert kept + [segments[0]] + segments[1..] == kept + segments;
    }
  }

  lemma {:induction false} FirstSegment(name: string, s: string)
    requires '/' !in name
    ensures StartsWith(s, name + "/") ==> Split(s)[0] == name
  {
    if StartsWith(s, name + "/") {
      assert s == name + "/" + s[|name| + 1..];
      SplitFirst(name, s[|name| + 1..]);
    }
  }

  lemma {:induction false} NoDotPrefix(segments: seq<string>)
    requires segments != [] && AllPlain(segments)
    ensures Split(Join(segments)) == segments
    ensures Join(segments) != "" && Join(segments)[0] != '/'
    ensures !EndsWith(Join(segments), "/")
    ensures Join(segments) != "." && !StartsWith(Join(segments), "./") && !StartsWith(Join(segments), "../")
  {
    PlainHasNoSlash(segments);
    SplitJoin(segments);
    var s := Join(segments);
    FirstSegment("", s);
    FirstSegment(".", s);
    FirstSegment("..", s);
    SplitSingle(".");
    assert segments[|segments| - 1] in segments;
    JoinEnd(segments);
  }

  lemma {:induction false} JoinEnd(segments: seq<string>)
    requires segments != [] && segments[|segments| - 1] != "" && '/' !in segments[|segments| - 1]
    ensures Join(segments) != "" && Join(segments)[|Join(segments)| - 1] != '/'
    decreases |segments|
  {
    if |segments| > 1 {
      JoinEnd(segments[1..]);
    }
  }

  /** A relative path without a trailing slash is normalized by resolving its segments. */
  lemma {:induction false} NormalizeRelative(path: string)
    requires path != "" && path[0] != '/' && !EndsWith(path, "/")
    ensures var kept := Resolve(Split(path), [], true);
            PosixNormalize(path) == if kept == [] then "." else Join(kept)
  {
    assert path[|path| - 1..] == [path[|path| - 1]];
    var kept := Resolve(Split(path), [], true);
    if kept != [] {
      assert "" + Join(kept) + "" == Join(kept);
    }
  }

  /** Every accepted path comes out as plain segments joined by single slashes. */
  lemma {:induction false} NormalizedIsVaultPath(input: string)
    requires NormalizeVaultPath(input).Some?
    ensures IsVaultPath(NormalizeVaultPath(input).value)
  {
    var portable := Portable(input);
    PortableIsPlain(input);
    NormalizeRelative(portable);
    SplitChars(portable);
    var kept := Resolve(Split(portable), [], true);
    ResolveKeepsPlain(Split(portable), [], true);
    hide Split, Resolve, Portable, AllPlain, PosixNormalize;
    if kept != [] {
      NoDotPrefix(kept);
    }
  }

  /**
   * Normalizing twice is the same as normalizing once exactly when the result does not start with
   * a drive; otherwise the second pass rejects what the first one produced.
   */
  lemma {:induction false} NormalizeAgain(path: string)
    requires IsVaultPath(path)
    ensures NormalizeVaultPath(path) == if DriveAbsolute(path) then None else Some(path)
  {
    var segments := Split(path);
    JoinSplit(path);
    NoDotPrefix(segments);
    VaultPathChars(path);
    PortableIsPlain(path);
    PlainHasNoSlash(segments);
    NormalizeRelative(path);
    ResolvePlain(segments, [], true);
    assert [] + segments == segments;
    assert path[0] != '\\';
    hide Split, Resolve, Portable, AllPlain, PosixNormalize, Join;
  }

  lemma {:induction false} VaultPathChars(path: string)
    requires IsVaultPath(path)
    ensures '\\' !in path && '\0' !in path
  {
    PlainHasNoSlash(Split(path));
    JoinSplit(path);
    JoinChars(Split(path));
  }

  lemma {:induction false} JoinChars(segments: seq<string>)
    requires segments != [] && forall x :: x in segments ==> '\\' !in x && '\0' !in x
    ensures '\\' !in Join(segments) && '\0' !in Join(segments)
    decreases |segments|
  {
    assert segments[0] in segments;
    if |segments| > 1 {
      JoinChars(segments[1..]);
    }
  }

  lemma {:induction false} NormalizeTwice(input: string)
    requires NormalizeVaultPath(input).Some?
    ensures var once := NormalizeVaultPath(input).value;
            NormalizeVaultPath(once) == Some(once) <==> !DriveAbsolute(once)
  {
    NormalizedIsVaultPath(input);
    NormalizeAgain(NormalizeVaultPath(input).value);
  }

  lemma {:induction false} SplitBehindDot(path: string)
    requires IsVaultPath(path)
    ensures Split("./" + path) == ["."] + Split(path) && ".." !in Split("./" + path)
    ensures Resolve(Split("./" + path), [], true) == Split(path)
  {
    SplitFirst(".", path);
    assert "." + "/" + path == "./" + path;
    PlainHasNoSlash(Split(path));
    ResolvePlain(Split(path), [], true);
    hide Split, AllPlain;
    assert (["."] + Split(path))[1..] == Split(path);
  }

  lemma {:induction false} NormalizeBehindDot(path: string)
    requires IsVaultPath(path)
    ensures PosixNormalize("./" + path) == path && !EndsWith("./" + path, "/")
  {
    NoDotPrefix(Split(path));
    JoinSplit(path);
    SplitBehindDot(path);
    hide Split, AllPlain, Resolve, PosixNormalize, Join;
    EndsAlike(".", path);
    NormalizeRelative("./" + path);
  }

  lemma EndsAlike(a: string, b: string)
    requires b != ""
    ensures EndsWith(a + "/" + b, "/") <==> EndsWith(b, "/")
    ensures a + "/" + b == a + ("/" + b)
  {
    var s := a + "/" + b;
    assert s[|s| - 1..] == [b[|b| - 1]] && b[|b| - 1..] == [b[|b| - 1]];
  }

  /** The failing family: any path with a drive is accepted behind `./`, and rejected afterwards. */
  lemma {:induction false} DriveBehindDot(path: string)
    requires IsVaultPath(path) && DriveAbsolute(path)
    ensures NormalizeVaultPath("./" + path) == Some(path) && NormalizeVaultPath(path) == None
  {
    NormalizeAgain(path);
    VaultPathChars(path);
    PortableIsPlain("./" + path);
    SplitBehindDot(path);
    NormalizeBehindDot(path);
    NoDotPrefix(Split(path));
    JoinSplit(path);
    hide Split, Portable, PosixNormalize, AllPlain, Join, Resolve;
  }

  // ---------- what is accepted, exactly ----------

  /** The segments that name something: neither empty nor `.`. */
  function Named(segments: seq<string>): seq<string> {
    if segments == [] then []
    else (if segments[0] == "" || segments[0] == "." then [] else [segments[0]]) + Named(segments[1..])
  }

  lemma {:induction false} PortableAt(s: string, i: nat)
    requires i < |s|
    ensures Portable(s)[i] == if s[i] == '\\' then '/' else s[i]
  {
    if i > 0 {
      PortableAt(s[1..], i - 1);
    }
  }

  lemma {:induction false} ResolveNamed(segments: seq<string>, kept: seq<string>, aboveRoot: bool)
    requires ".." !in segments
    ensures Resolve(segments, kept, aboveRoot) == kept + Named(segments)
    decreases |segments|
  {
    if segments == [] {
      assert kept + Named(segments) == kept;
    } else {
      var first := if segments[0] == "" || segments[0] == "." then [] else [segments[0]];
      assert segments[0] in segments && ".." !in segments[1..];
      ResolveNamed(segments[1..], kept + first, aboveRoot);
      assert kept + first + Named(segments[1..]) == kept + (first + Named(segments[1..]));
      assert first == [] ==> kept + first == kept;
    }
  }

  /**
   * A path is accepted exactly when it is relative, ends in no slash, climbs nowhere and names
   * something; what comes out is the named segments with single slashes between them.
   */
  lemma {:induction false} NormalizedExactly(input: string)
    ensures var segments := Split(Portable(input));
            NormalizeVaultPath(input) ==
              if input == "" || '\0' in input || input[0] in "/\\" || DriveAbsolute(input) || input[|input| - 1] in "/\\"
                 || ".." in segments || Named(segments) == [] then None
              else Some(Join(Named(segments)))
  {
    var portable := Portable(input);
    if input != "" && '\0' !in input && input[0] !in "/\\" && ".." !in Split(portable) {
      PortableAt(input, 0);
      PortableAt(input, |input| - 1);
      assert portable[|portable| - 1..] == [portable[|portable| - 1]];
      if input[|input| - 1] !in "/\\" {
        NormalizeRelative(portable);
        ResolveNamed(Split(portable), [], true);
        assert [] + Named(Split(portable)) == Named(Split(portable));
        PortableIsPlain(input);
        SplitChars(portable);
        ResolveKeepsPlain(Split(portable), [], true);
        hide Split, Resolve, Portable, AllPlain, PosixNormalize, Join;
        if Named(Split(portable)) != [] {
          NoDotPrefix(Named(Split(portable)));
        }
      }
    }
  }

  // ---------- joining a relative path back ----------

  lemma {:induction false} SplitConcat(a: string, b: string)
    ensures Split(a + "/" + b) == Split(a) + Split(b)
    decreases |a|
  {
    if a == "" {
      SplitFirst("", b);
    } else {
      assert (a + "/" + b)[1..] == a[1..] + "/" + b && (a + "/" + b)[0] == a[0];
      SplitConcat(a[1..], b);
    }
  }

  lemma {:induction false} ResolveConcat(a: seq<string>, b: seq<string>, kept: seq<string>)
    ensures Resolve(a + b, kept, true) == Resolve(b, Resolve(a, kept, true), true)
    decreases |a|
  {
    if a == [] {
      assert a + b == b;
    } else {
      assert (a + b)[1..] == a[1..] + b && (a + b)[0] == a[0];
      if a[0] == "" || a[0] == "." {
        ResolveConcat(a[1..], b, kept);
      } else if a[0] != ".." {
        ResolveConcat(a[1..], b, kept + [a[0]]);
      } else if kept != [] && kept[|kept| - 1] != ".." {
        ResolveConcat(a[1..], b, kept[..|kept| - 1]);
      } else {
        ResolveConcat(a[1..], b, kept + [".."]);
      }
    }
  }

  /** Climbing one level per segment of `from` leaves what was kept before it. */
  lemma {:induction false} ResolveUp(from: seq<string>, kept: seq<string>)
    requires AllPlain(from)
    ensures Resolve(Up(|from|), kept + from, true) == kept
    decreases |from|
  {
    if from == [] {
      assert kept + from == kept;
    } else {
      var last := from[|from| - 1];
      PlainHasNoSlash(from);
      assert last in from;
      assert (kept + from)[..|kept + from| - 1] == kept + from[..|from| - 1];
      assert from == from[..|from| - 1] + [last];
      PlainConcat(from[..|from| - 1], [last]);
      ResolveUp(from[..|from| - 1], kept);
      assert Up(|from|)[1..] == Up(|from| - 1);
    }
  }

  /** Following the relative path from a folder leads to its target. */
  lemma {:induction false} RelativeLeadsBack(from: seq<string>, to: seq<string>, kept: seq<string>)
    requires AllPlain(from) && AllPlain(to)
    ensures Resolve(RelativeSegments(from, to), kept + from, true) == kept + to
    decreases |from|
  {
    if from != [] && to != [] && from[0] == to[0] {
      RelativeLeadsBack(from[1..], to[1..], kept + [from[0]]);
      assert kept + [from[0]] + from[1..] == kept + from && kept + [from[0]] + to[1..] == kept + to;
    } else {
      ResolveConcat(Up(|from|), to, kept + from);
      ResolveUp(from, kept);
      ResolvePlain(to, kept, true);
    }
  }
}
