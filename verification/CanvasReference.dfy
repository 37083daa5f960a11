/**
 * Attachment references inside a canvas: the reader
 * (src/application/canvas-attachment-service.ts) and the printer that rewrites them when an
 * attachment moves (src/application/json-canvas-reference-rewrite.ts).
 */
module CanvasReference {
  import opened Options
  import opened Sequences
  import opened JsText
  import opened VaultPath
  import opened Percent
  import opened Utf8

  datatype Rejection = Invalid | External | OutsideVault | Private

  datatype Resolution = Resolved(path: string) | Rejected(reason: Rejection)

  const MAX_TARGET_LENGTH := 4096

  // ---------- the reader ----------

  predicate IsPrivateSegment(segment: string) {
    var folded := Lower(segment);
    folded == ".obsidian" || folded == ".git" || folded == ".trash" || StartsWith(folded, ".threadleaf-")
  }

  predicate IsPrivateVaultPath(path: string) {
    exists segment :: segment in Split(path) && IsPrivateSegment(segment)
  }

  function StripAngleBrackets(target: string): string {
    if StartsWith(target, "<") && EndsWith(target, ">") && |target| >= 2
    then Trim(target[1..|target| - 1]) else target
  }

  predicate IsSchemeChar(c: char) {
    IsLetter(c) || IsDigit(c) || c == '+' || c == '.' || c == '-'
  }

  predicate SchemeEnds(s: string) {
    s != "" && (s[0] == ':' || (IsSchemeChar(s[0]) && SchemeEnds(s[1..])))
  }

  predicate HasScheme(s: string) {
    s != "" && IsLetter(s[0]) && SchemeEnds(s[1..])
  }

  /** Where the query or fragment starts. */
  function DelimiterAt(s: string): (n: nat)
    ensures n <= |s|
    ensures n < |s| ==> s[n] == '?' || s[n] == '#'
  {
    if s == "" || s[0] == '?' || s[0] == '#' then 0 else 1 + DelimiterAt(s[1..])
  }

  predicate StartsWithDrive(s: string) {
    |s| > 2 && IsLetter(s[0]) && s[1] == ':' && s[2] == '/'
  }

  predicate IsSourceRelative(decoded: string) {
    decoded == "." || decoded == ".." || StartsWith(decoded, "./") || StartsWith(decoded, "../")
  }

  function StripSlashes(s: string): string {
    if s != "" && s[0] == '/' then StripSlashes(s[1..]) else s
  }

  function ResolveDecoded(sourcePath: string, decodedPath: string): Resolution {
    if decodedPath == "" || '\0' in decodedPath || StartsWithDrive(decodedPath) then Rejected(Invalid)
    else
      var candidate :=
        if StartsWith(decodedPath, "/") || !IsSourceRelative(decodedPath) then StripSlashes(decodedPath)
        else PosixJoin(Dirname(sourcePath), decodedPath);
      var resolved := NormalizeVaultPath(candidate);
      if resolved.None? then Rejected(OutsideVault)
      else if IsPrivateVaultPath(resolved.value) then Rejected(Private)
      else Resolved(resolved.value)
  }

  function ResolveCanvasAttachmentTarget(sourceCanvasPath: string, rawTarget: string): Resolution {
    var sourcePath := NormalizeVaultPath(sourceCanvasPath);
    if sourcePath.None? || !EndsWith(Lower(sourcePath.value), ".canvas") then Rejected(Invalid)
    else
      var trimmed := StripAngleBrackets(Trim(rawTarget));
      if trimmed == "" || |trimmed| > MAX_TARGET_LENGTH || '\0' in trimmed then Rejected(Invalid)
      else if HasScheme(trimmed) || StartsWith(trimmed, "//") then Rejected(External)
      else
        var decoded := DecodeUriComponent(trimmed[..DelimiterAt(trimmed)]);
        if decoded.None? then Rejected(Invalid) else ResolveDecoded(sourcePath.value, Portable(decoded.value))
  }

  // ---------- the printer ----------

  function ReplacementTarget(canvasPath: string, rawTarget: string, targetPath: string): Option<string> {
    if Trim(rawTarget) != rawTarget || '\\' in rawTarget then None
    else if StartsWith(rawTarget, "<") || EndsWith(rawTarget, ">") then None
    else
      var encodedSourcePath := rawTarget[..DelimiterAt(rawTarget)];
      var suffix := rawTarget[DelimiterAt(rawTarget)..];
      var decoded := DecodeUriComponent(encodedSourcePath);
      if decoded.None? then None
      else if StartsWith(encodedSourcePath, "/") then Some("/" + EncodedPath(targetPath) + suffix)
      else if !IsSourceRelative(decoded.value) then Some(EncodedPath(targetPath) + suffix)
      else
        var encodedRelative := EncodedPath(PosixRelative(DirSegments(canvasPath), targetPath));
        Some((if StartsWith(encodedRelative, ".") then encodedRelative else "./" + encodedRelative) + suffix)
  }

  /** What is both read and replaced holds no NUL: the reader rejects it, and nothing is trimmed off. */
  lemma {:induction false} ResolvedHasNoNul(canvasPath: string, rawTarget: string, targetPath: string)
    requires ResolveCanvasAttachmentTarget(canvasPath, rawTarget).Resolved? && ReplacementTarget(canvasPath, rawTarget, targetPath).Some?
    ensures '\0' !in rawTarget
  {
    hide Trim, DecodeUriComponent, DelimiterAt, NormalizeVaultPath, ResolveDecoded, Lower, EncodedPath;
  }

  // ---------- what the reader makes of a printed reference ----------

  /** The suffix of an accepted reference: a query or fragment with nothing to trim at its end. */
  ghost predicate IsSuffix(suffix: string) {
    suffix != "" ==>
      && (suffix[0] == '?' || suffix[0] == '#')
      && !IsSpace(suffix[|suffix| - 1]) && suffix[|suffix| - 1] != '>' && '\0' !in suffix
  }

  lemma {:induction false} EncodedBeforeSuffix(printed: string, suffix: string)
    requires IsEncoded(printed) && IsSuffix(suffix)
    ensures DelimiterAt(printed + suffix) == |printed|
    ensures !SchemeEnds(printed + suffix)
    ensures '\0' !in printed
    decreases |printed|
  {
    if printed == "" {
      assert printed + suffix == suffix;
      assert suffix != "" ==> !IsSchemeChar(suffix[0]);
    } else {
      ConsConcat(printed, suffix);
      EncodedCharIsOrdinary(printed[0]);
      EncodedBeforeSuffix(printed[1..], suffix);
      HeadTail(printed);
    }
  }

  lemma {:induction false} EncodedLast(printed: string)
    requires IsEncoded(printed) && printed != ""
    ensures IsEncodedChar(printed[|printed| - 1])
    decreases |printed|
  {
    if |printed| > 1 {
      EncodedLast(printed[1..]);
    }
  }

  lemma {:induction false} NotTrimmed(printed: string, suffix: string)
    requires IsEncoded(printed) && printed != "" && IsSuffix(suffix)
    ensures StripAngleBrackets(Trim(printed + suffix)) == printed + suffix
  {
    var s := printed + suffix;
    EncodedLast(printed);
    EncodedCharIsOrdinary(printed[0]);
    EncodedCharIsOrdinary(printed[|printed| - 1]);
    assert s[0] == printed[0];
    assert s[|s| - 1] == if suffix == "" then printed[|printed| - 1] else suffix[|suffix| - 1];
    TrimmedIff(s);
  }

  lemma EncodedCharIsOrdinary(c: char)
    requires IsEncodedChar(c)
    ensures !IsSpace(c) && c != '<' && c != '>' && c != '\0' && c != ':' && c != '?' && c != '#'
  {
  }

  /** A printed reference is read by decoding its path part, unless it is too long. */
  lemma {:induction false} ReadPrinted(canvasPath: string, printed: string, suffix: string, decoded: string)
    requires IsVaultPath(canvasPath) && !DriveAbsolute(canvasPath) && EndsWith(Lower(canvasPath), ".canvas")
    requires IsEncoded(printed) && printed != "" && !StartsWith(printed, "//") && IsSuffix(suffix)
    requires DecodeUriComponent(printed) == Some(decoded) && '\\' !in decoded && '\0' !in decoded
    ensures ResolveCanvasAttachmentTarget(canvasPath, printed + suffix)
         == if |printed + suffix| > MAX_TARGET_LENGTH then Rejected(Invalid) else ResolveDecoded(canvasPath, decoded)
  {
    NormalizeAgain(canvasPath);
    NotTrimmed(printed, suffix);
    EncodedBeforeSuffix(printed, suffix);
    EncodedBeforeSuffix(printed[1..], suffix);
    PortableIsPlain(decoded);
    ReadPrintedHead(printed, suffix);
    hide NormalizeVaultPath, IsVaultPath, IsEncoded, DecodeUriComponent, ResolveDecoded, Portable, Trim, StripAngleBrackets,
         DelimiterAt, SchemeEnds, DriveAbsolute, Lower;
  }

  lemma {:induction false} ReadPrintedHead(printed: string, suffix: string)
    requires printed != "" && !StartsWith(printed, "//") && IsSuffix(suffix)
    ensures (printed + suffix)[1..] == printed[1..] + suffix
    ensures (printed + suffix)[..|printed|] == printed && !StartsWith(printed + suffix, "//")
  {
    ConsConcat(printed, suffix);
  }

  // ---------- the three spellings ----------

  lemma {:induction false} RootCandidate(path: string)
    requires IsVaultPath(path)
    ensures path != "" && !StartsWith(path, "/") && !IsSourceRelative(path) && '\0' !in path && '\\' !in path
    ensures StripSlashes(path) == path && StripSlashes("/" + path) == path
    ensures StartsWithDrive(path) <==> DriveAbsolute(path)
  {
    JoinSplit(path);
    NoDotPrefix(Split(path));
    VaultPathChars(path);
    SplitSingle("..");
    PlainHasNoSlash(Split(path));
    hide Split, Join, AllPlain;
    assert path != "..";
    DropHead("/", path);
  }

  /** Reading from the vault root, with or without a leading slash. */
  lemma {:induction false} ResolveFromRoot(sourcePath: string, decoded: string, path: string)
    requires IsVaultPath(path) && (decoded == path || decoded == "/" + path)
    ensures ResolveDecoded(sourcePath, decoded)
         == if DriveAbsolute(path) then (if decoded == path then Rejected(Invalid) else Rejected(OutsideVault))
            else if IsPrivateVaultPath(path) then Rejected(Private)
            else Resolved(path)
  {
    NormalizeAgain(path);
    RootCandidate(path);
    hide NormalizeVaultPath, IsVaultPath, PosixJoin, IsPrivateVaultPath, Dirname, StripSlashes, IsSourceRelative, DriveAbsolute;
    if decoded != path {
      assert decoded[0] == '/' && !StartsWithDrive(decoded) && StartsWith(decoded, "/") && '\0' !in decoded;
    }
  }

  lemma {:induction false} RelativeShape(from: seq<string>, to: seq<string>)
    requires AllPlain(from) && AllPlain(to)
    ensures var relative := RelativeSegments(from, to);
            && (forall x :: x in relative ==> x == ".." || Plain(x))
            && (relative == [] ==> to == from)
            && (relative != [] && relative[0] != ".." ==> to == from + relative)
    decreases |from|
  {
    if from != [] && to != [] && from[0] == to[0] {
      RelativeShape(from[1..], to[1..]);
      HeadTail(from);
      HeadTail(to);
      Associative([from[0]], from[1..], RelativeSegments(from, to));
    } else {
      PlainHasNoSlash(to);
      if from == [] {
        assert Up(0) + to == to && from + to == to;
      } else {
        assert (Up(|from|) + to)[0] == "..";
      }
    }
  }

  /** Segments that lead from the folder of a canvas to `to`, read relative to that canvas. */
  lemma {:induction false} JoinFromFolder(sourcePath: string, segments: seq<string>, to: seq<string>)
    requires IsVaultPath(sourcePath)
    requires segments != [] && (forall x :: x in segments ==> x != "" && '/' !in x)
    requires Resolve(segments, DirSegments(sourcePath), true) == to
    ensures PosixJoin(Dirname(sourcePath), Join(segments)) == if to == [] then "." else Join(to)
  {
    var folder := DirSegments(sourcePath);
    var whole := Dirname(sourcePath) + "/" + Join(segments);
    FolderResolves(sourcePath);
    SplitConcat(Dirname(sourcePath), Join(segments));
    SplitJoin(segments);
    ResolveConcat(Split(Dirname(sourcePath)), segments, []);
    assert segments[|segments| - 1] in segments;
    JoinEnd(segments);
    EndsAlike(Dirname(sourcePath), Join(segments));
    LastChar(Join(segments));
    hide Split, Join, Resolve, AllPlain, Dirname, EndsWith;
    assert whole[0] == Dirname(sourcePath)[0];
    NormalizeRelative(whole);
  }

  lemma LastChar(s: string)
    requires s != ""
    ensures EndsWith(s, "/") <==> s[|s| - 1] == '/'
  {
    assert s[|s| - 1..] == [s[|s| - 1]];
  }

  lemma {:induction false} FolderResolves(sourcePath: string)
    requires IsVaultPath(sourcePath)
    ensures AllPlain(DirSegments(sourcePath))
    ensures Dirname(sourcePath) != "" && Dirname(sourcePath)[0] != '/'
    ensures Resolve(Split(Dirname(sourcePath)), [], true) == DirSegments(sourcePath)
  {
    var segments := Split(sourcePath);
    var folder := DirSegments(sourcePath);
    assert folder + [segments[|segments| - 1]] == segments;
    PlainConcat(folder, [segments[|segments| - 1]]);
    if folder == [] {
      SplitSingle(".");
      assert ["."][1..] == [];
    } else {
      NoDotPrefix(folder);
      ResolvePlain(folder, [], true);
      assert [] + folder == folder;
    }
  }

  /** A printed relative path is read as its target. */
  lemma {:induction false} ResolveFromFolder(sourcePath: string, segments: seq<string>, path: string)
    requires IsVaultPath(sourcePath) && IsVaultPath(path)
    requires segments != [] && (segments[0] == "." || segments[0] == "..")
    requires forall x :: x in segments ==> x != "" && '/' !in x && '\\' !in x && '\0' !in x
    requires Resolve(segments, DirSegments(sourcePath), true) == Split(path)
    ensures ResolveDecoded(sourcePath, Join(segments))
         == if DriveAbsolute(path) then Rejected(OutsideVault)
            else if IsPrivateVaultPath(path) then Rejected(Private)
            else Resolved(path)
  {
    JoinFromFolder(sourcePath, segments, Split(path));
    JoinSplit(path);
    NormalizeAgain(path);
    JoinChars(segments);
    JoinHead(segments);
    hide NormalizeVaultPath, IsVaultPath, PosixJoin, IsPrivateVaultPath, Dirname, StripSlashes, DriveAbsolute, Join, Split;
  }

  lemma JoinHead(segments: seq<string>)
    requires segments != [] && (segments[0] == "." || segments[0] == "..")
    ensures IsSourceRelative(Join(segments)) && !StartsWith(Join(segments), "/") && !StartsWithDrive(Join(segments))
    ensures Join(segments) != ""
  {
    assert Join(segments)[0] == '.';
  }

  // ---------- printing and reading back ----------

  ghost predicate SpelledRelative(rawTarget: string) {
    var decoded := DecodeUriComponent(rawTarget[..DelimiterAt(rawTarget)]);
    !StartsWith(rawTarget[..DelimiterAt(rawTarget)], "/") && decoded.Some? && IsSourceRelative(decoded.value)
  }

  function Suffix(rawTarget: string): string {
    rawTarget[DelimiterAt(rawTarget)..]
  }

  /** The path the printer spells out, before encoding. */
  ghost function Spelled(canvasPath: string, rawTarget: string, targetPath: string): string {
    var relative := PosixRelative(DirSegments(canvasPath), targetPath);
    if StartsWith(rawTarget[..DelimiterAt(rawTarget)], "/") then "/" + targetPath
    else if !SpelledRelative(rawTarget) then targetPath
    else if StartsWith(relative, ".") then relative
    else "./" + relative
  }

  lemma {:induction false} FirstEncoded(path: string)
    requires path != ""
    ensures EncodeChars(path) != ""
    ensures EncodeChars(path)[0] == '/' <==> path[0] == '/'
    ensures EncodeChars(path)[0] == '.' <==> path[0] == '.'
  {
    if path[0] != '/' && !IsUriUnescaped(path[0]) {
      var bytes := EncodeChar(path[0]);
      assert EncodeBytes(bytes)[0] == '%';
    }
  }

  /** The printer encodes the spelled path and keeps the query or fragment. */
  lemma {:induction false} PrintedIsSpelled(canvasPath: string, rawTarget: string, targetPath: string)
    requires ReplacementTarget(canvasPath, rawTarget, targetPath).Some?
    ensures ReplacementTarget(canvasPath, rawTarget, targetPath).value
         == EncodeChars(Spelled(canvasPath, rawTarget, targetPath)) + Suffix(rawTarget)
  {
    var relative := PosixRelative(DirSegments(canvasPath), targetPath);
    EncodedPathRoundTrip(targetPath);
    EncodedPathRoundTrip(relative);
    if relative != "" {
      FirstEncoded(relative);
    }
    EncodeLead(targetPath, relative);
    hide EncodeChars, EncodedPath, DecodeUriComponent, PosixRelative, IsSourceRelative, IsEncoded, Trim, DelimiterAt;
  }

  lemma {:induction false} EncodeLead(a: string, b: string)
    ensures EncodeChars("/" + a) == "/" + EncodeChars(a)
    ensures EncodeChars("./" + b) == "./" + EncodeChars(b)
    ensures EncodeChars("") == ""
  {
    EncodeSlash(a);
    EncodeSlash(b);
    EncodeDot("/" + b);
    Associative(".", "/", b);
    Associative(".", "/", EncodeChars(b));
    assert "." + "/" == "./";
    hide EncodeChars;
    EncodeNothing();
  }

  lemma EncodeNothing()
    ensures EncodeChars("") == ""
  {
  }

  lemma EncodeSlash(a: string)
    ensures EncodeChars("/" + a) == "/" + EncodeChars(a)
  {
    DropHead("/", a);
  }

  lemma EncodeDot(a: string)
    ensures EncodeChars("." + a) == "." + EncodeChars(a)
  {
    DropHead(".", a);
  }

  lemma {:induction false} SuffixIsSuffix(canvasPath: string, rawTarget: string, targetPath: string)
    requires ReplacementTarget(canvasPath, rawTarget, targetPath).Some? && '\0' !in rawTarget
    ensures IsSuffix(Suffix(rawTarget))
  {
    var suffix := Suffix(rawTarget);
    if suffix != "" {
      TrimmedIff(rawTarget);
      assert suffix[|suffix| - 1] == rawTarget[|rawTarget| - 1] && suffix[0] == rawTarget[DelimiterAt(rawTarget)];
      assert rawTarget[|rawTarget| - 1..] == [rawTarget[|rawTarget| - 1]];
    }
  }

  /**
   * When a relative reference can be read back at all: the path has at least one step, and unless
   * the canvas lies in the vault root its first step is `..` or a name without a leading dot.
   */
  predicate RelativeReadable(canvasPath: string, targetPath: string) {
    var relative := RelativeSegments(DirSegments(canvasPath), Split(targetPath));
    && relative != []
    && (relative[0] == ".." || !StartsWith(relative[0], ".") || DirSegments(canvasPath) == [])
  }

  predicate Reachable(path: string) {
    !DriveAbsolute(path) && !IsPrivateVaultPath(path)
  }

  lemma {:induction false} ResolveSpelledRelative(canvasPath: string, targetPath: string, spelled: string)
    requires IsVaultPath(canvasPath) && IsVaultPath(targetPath)
    requires var relative := PosixRelative(DirSegments(canvasPath), targetPath);
             spelled == if StartsWith(relative, ".") then relative else "./" + relative
    ensures spelled != "" && !StartsWith(spelled, "//") && '\\' !in spelled && '\0' !in spelled
    ensures ResolveDecoded(canvasPath, spelled) == Resolved(targetPath)
       <==> Reachable(targetPath) && RelativeReadable(canvasPath, targetPath)
  {
    var from, to := DirSegments(canvasPath), Split(targetPath);
    var relative := RelativeSegments(from, to);
    FolderResolves(canvasPath);
    RelativeShape(from, to);
    hide AllPlain, Resolve, ResolveDecoded, Split, RelativeSegments, DriveAbsolute, IsPrivateVaultPath;
    if relative == [] {
      EmptyRelative(canvasPath, spelled);
    } else if relative[0] == ".." || !StartsWith(relative[0], ".") {
      StepRelative(canvasPath, targetPath, relative);
    } else {
      DotName(canvasPath, targetPath);
    }
  }

  /** A first step of `..`, or a name led by `./`, is read relative to the folder of the canvas. */
  lemma {:induction false} StepRelative(canvasPath: string, targetPath: string, relative: seq<string>)
    requires IsVaultPath(canvasPath) && IsVaultPath(targetPath)
    requires relative == RelativeSegments(DirSegments(canvasPath), Split(targetPath))
    requires relative != [] && (relative[0] == ".." || !StartsWith(relative[0], "."))
    ensures StartsWith(Join(relative), ".") <==> relative[0] == ".."
    ensures var spelled := if relative[0] == ".." then Join(relative) else "./" + Join(relative);
            && spelled != "" && !StartsWith(spelled, "//") && '\\' !in spelled && '\0' !in spelled
            && (ResolveDecoded(canvasPath, spelled) == Resolved(targetPath) <==> Reachable(targetPath))
  {
    var segments := StepSegments(canvasPath, targetPath, relative);
    JoinFirst(relative);
    JoinHead(segments);
    JoinChars(segments);
    hide AllPlain, Resolve, ResolveDecoded, Split, RelativeSegments, DriveAbsolute, IsPrivateVaultPath, Join, IsSourceRelative;
    ResolveFromFolder(canvasPath, segments, targetPath);
  }

  lemma {:induction false} RelativeLeadsToTarget(from: seq<string>, to: seq<string>)
    requires AllPlain(from) && AllPlain(to)
    ensures Resolve(RelativeSegments(from, to), from, true) == to
  {
    RelativeLeadsBack(from, to, []);
    assert [] + from == from && [] + to == to;
  }

  lemma {:induction false} StepSegments(canvasPath: string, targetPath: string, relative: seq<string>) returns (segments: seq<string>)
    requires IsVaultPath(canvasPath) && IsVaultPath(targetPath)
    requires relative == RelativeSegments(DirSegments(canvasPath), Split(targetPath))
    requires relative != [] && (relative[0] == ".." || !StartsWith(relative[0], "."))
    ensures relative[0] != "" && (relative[0][0] == '.' <==> relative[0] == "..")
    ensures segments != [] && (segments[0] == "." || segments[0] == "..")
    ensures forall x :: x in segments ==> x != "" && '/' !in x && '\\' !in x && '\0' !in x
    ensures Resolve(segments, DirSegments(canvasPath), true) == Split(targetPath)
    ensures Join(segments) == if relative[0] == ".." then Join(relative) else "./" + Join(relative)
  {
    hide AllPlain, Resolve, Split, RelativeSegments, Join;
    var from, to := DirSegments(canvasPath), Split(targetPath);
    FolderResolves(canvasPath);
    RelativeShape(from, to);
    RelativeLeadsToTarget(from, to);
    DotLed(relative, from);
    assert relative[0] in relative;
    segments := if relative[0] == ".." then relative else ["."] + relative;
  }

  lemma JoinFirst(segments: seq<string>)
    requires segments != [] && segments[0] != ""
    ensures Join(segments) != "" && Join(segments)[0] == segments[0][0]
  {
  }

  lemma DotLed(relative: seq<string>, from: seq<string>)
    requires relative != []
    ensures Join(["."] + relative) == "./" + Join(relative)
    ensures Resolve(["."] + relative, from, true) == Resolve(relative, from, true)
    ensures forall x :: x in ["."] + relative ==> x == "." || x in relative
  {
    assert (["."] + relative)[1..] == relative;
    assert "." + "/" + Join(relative) == "./" + Join(relative);
  }

  /** A canvas cannot print a relative path to its own folder that the reader accepts. */
  lemma {:induction false} EmptyRelative(canvasPath: string, spelled: string)
    requires IsVaultPath(canvasPath) && spelled == "./"
    ensures ResolveDecoded(canvasPath, spelled) == Rejected(OutsideVault)
  {
    var joined := PosixJoin(Dirname(canvasPath), spelled);
    TrailingSlash(Dirname(canvasPath) + "/" + spelled);
    RejectTrailing(joined);
    assert StartsWith(spelled, "./") && !StartsWith(spelled, "/");
    hide PosixJoin, PosixNormalize, NormalizeVaultPath, Dirname;
  }

  lemma TrailingSlash(path: string)
    requires path != "" && path[|path| - 1] == '/'
    ensures PosixNormalize(path) != "" && PosixNormalize(path)[|PosixNormalize(path)| - 1] == '/'
  {
  }

  lemma {:induction false} RejectTrailing(path: string)
    requires path != "" && path[|path| - 1] == '/'
    ensures NormalizeVaultPath(path) == None
  {
    PortableEnd(path);
    LastChar(Portable(path));
  }

  lemma {:induction false} PortableEnd(s: string)
    requires s != "" && s[|s| - 1] == '/'
    ensures Portable(s)[|s| - 1] == '/'
    decreases |s|
  {
    if |s| > 1 {
      PortableEnd(s[1..]);
    }
  }

  /** Without `./` a name with a leading dot is read from the vault root instead. */
  lemma {:induction false} DotName(canvasPath: string, targetPath: string)
    requires IsVaultPath(canvasPath) && IsVaultPath(targetPath)
    requires var relative := RelativeSegments(DirSegments(canvasPath), Split(targetPath));
             relative != [] && relative[0] != ".." && StartsWith(relative[0], ".")
    ensures var relative := RelativeSegments(DirSegments(canvasPath), Split(targetPath));
            && Join(relative) != "" && StartsWith(Join(relative), ".")
            && '\\' !in Join(relative) && '\0' !in Join(relative)
            && (ResolveDecoded(canvasPath, Join(relative)) == Resolved(targetPath)
                <==> Reachable(targetPath) && DirSegments(canvasPath) == [])
  {
    var from, to := DirSegments(canvasPath), Split(targetPath);
    var relative := RelativeSegments(from, to);
    FolderResolves(canvasPath);
    RelativeShape(from, to);
    PlainConcat(from, relative);
    JoinFirst(relative);
    JoinChars(relative);
    PlainHasNoSlash(relative);
    SplitJoin(relative);
    JoinSplit(targetPath);
    ResolveFromRoot(canvasPath, Join(relative), Join(relative));
    if from == [] {
      assert from + relative == relative;
    } else {
      assert |to| > |relative|;
    }
    hide Join, Split, ResolveDecoded, AllPlain, IsPrivateVaultPath;
  }

  /**
   * The printed reference is read from the same canvas as exactly the new target path, with its
   * query or fragment kept, if and only if it fits the length limit, the target is one the reader
   * admits at all, and a relative spelling has a first step that the reader recognizes.
   */
  lemma {:induction false} PrintedIsReadBack(canvasPath: string, rawTarget: string, targetPath: string)
    requires IsVaultPath(canvasPath) && !DriveAbsolute(canvasPath) && EndsWith(Lower(canvasPath), ".canvas")
    requires IsVaultPath(targetPath) && '\0' !in rawTarget
    requires ReplacementTarget(canvasPath, rawTarget, targetPath).Some?
    ensures var printed := ReplacementTarget(canvasPath, rawTarget, targetPath).value;
            && Suffix(printed) == Suffix(rawTarget)
            && (ResolveCanvasAttachmentTarget(canvasPath, printed) == Resolved(targetPath)
                <==> && |printed| <= MAX_TARGET_LENGTH
                     && Reachable(targetPath)
                     && (SpelledRelative(rawTarget) ==> RelativeReadable(canvasPath, targetPath)))
  {
    var spelled := Spelled(canvasPath, rawTarget, targetPath);
    var suffix := Suffix(rawTarget);
    PrintedIsSpelled(canvasPath, rawTarget, targetPath);
    SuffixIsSuffix(canvasPath, rawTarget, targetPath);
    SpelledIsResolved(canvasPath, rawTarget, targetPath);
    FirstEncoded(spelled);
    CharsEncoded(spelled);
    DecodeWhole(spelled);
    NoDoubleSlash(spelled);
    EncodedBeforeSuffix(EncodeChars(spelled), suffix);
    DropHead(EncodeChars(spelled), suffix);
    ReadPrinted(canvasPath, EncodeChars(spelled), suffix, spelled);
    hide ResolveCanvasAttachmentTarget, ReplacementTarget, EncodeChars, DecodeUriComponent, IsEncoded, Spelled, ResolveDecoded,
         IsVaultPath, Lower, DriveAbsolute, RelativeReadable, Reachable, DelimiterAt;
  }

  /** The new reference is spelled in the way of the old one: from the root with or without a slash, or relative. */
  lemma {:induction false} SpellingIsKept(canvasPath: string, rawTarget: string, targetPath: string)
    requires IsVaultPath(canvasPath) && IsVaultPath(targetPath) && '\0' !in rawTarget
    requires ReplacementTarget(canvasPath, rawTarget, targetPath).Some?
    ensures var printed := ReplacementTarget(canvasPath, rawTarget, targetPath).value;
            var body := printed[..DelimiterAt(printed)];
            && printed == body + rawTarget[DelimiterAt(rawTarget)..]
            && if rawTarget != "" && rawTarget[0] == '/' then Spells(body, "/" + targetPath)
               else if !SpelledRelative(rawTarget) then Spells(body, targetPath)
               else exists text :: Spells(body, text) && text != "" && text[0] == '.'
  {
    var spelled, suffix := Spelled(canvasPath, rawTarget, targetPath), Suffix(rawTarget);
    PrintedIsSpelled(canvasPath, rawTarget, targetPath);
    SuffixIsSuffix(canvasPath, rawTarget, targetPath);
    CharsEncoded(spelled);
    EncodedBeforeSuffix(EncodeChars(spelled), suffix);
    DecodeWhole(spelled);
    DecodesIffSpelled(EncodeChars(spelled), spelled);
    assert (EncodeChars(spelled) + suffix)[..|EncodeChars(spelled)|] == EncodeChars(spelled);
    RootedIff(rawTarget);
    hide EncodeChars, DecodeUriComponent, DelimiterAt, IsVaultPath, ReplacementTarget, PosixRelative, IsEncoded;
    assert SpelledRelative(rawTarget) ==> spelled != "" && spelled[0] == '.';
  }

  lemma RootedIff(rawTarget: string)
    ensures StartsWith(rawTarget[..DelimiterAt(rawTarget)], "/") <==> rawTarget != "" && rawTarget[0] == '/'
  {
  }

  lemma {:induction false} DecodeWhole(path: string)
    ensures DecodeUriComponent(EncodeChars(path)) == Some(path)
  {
    DecodeChars(path, "");
    assert EncodeChars(path) + "" == EncodeChars(path) && path + "" == path;
  }

  lemma {:induction false} NoDoubleSlash(path: string)
    requires path != "" && !StartsWith(path, "//")
    ensures !StartsWith(EncodeChars(path), "//")
  {
    FirstEncoded(path);
    if path[0] == '/' {
      assert EncodeChars(path) == "/" + EncodeChars(path[1..]);
      if |path| > 1 {
        FirstEncoded(path[1..]);
      }
    }
  }

  lemma {:induction false} SpelledIsResolved(canvasPath: string, rawTarget: string, targetPath: string)
    requires IsVaultPath(canvasPath) && IsVaultPath(targetPath)
    ensures var spelled := Spelled(canvasPath, rawTarget, targetPath);
            && spelled != "" && !StartsWith(spelled, "//") && '\\' !in spelled && '\0' !in spelled
            && (ResolveDecoded(canvasPath, spelled) == Resolved(targetPath)
                <==> Reachable(targetPath) && (SpelledRelative(rawTarget) ==> RelativeReadable(canvasPath, targetPath)))
  {
    var spelled := Spelled(canvasPath, rawTarget, targetPath);
    if SpelledRelative(rawTarget) {
      ResolveSpelledRelative(canvasPath, targetPath, spelled);
    } else {
      RootCandidate(targetPath);
      ResolveFromRoot(canvasPath, spelled, targetPath);
    }
    hide ResolveDecoded, RelativeReadable, IsVaultPath, PosixRelative, DecodeUriComponent, DelimiterAt, IsSourceRelative, IsPrivateVaultPath;
  }

  // ---------- every reference ----------

  /** No folder or file on the way is the application's, the version control's or the trash's own. */
  ghost predicate IsPublic(path: string) {
    forall segment :: segment in Split(path) ==>
      Lower(segment) !in {".obsidian", ".git", ".trash"} && !(".threadleaf-" <= Lower(segment))
  }

  lemma PublicOrPrivate(path: string)
    ensures IsPublic(path) <==> !IsPrivateVaultPath(path)
  {
  }

  /** Whatever a reference says, it is resolved to a public path of the vault or rejected. */
  lemma {:induction false} ResolvedIsPublic(canvasPath: string, rawTarget: string)
    requires ResolveCanvasAttachmentTarget(canvasPath, rawTarget).Resolved?
    ensures var path := ResolveCanvasAttachmentTarget(canvasPath, rawTarget).path; IsVaultPath(path) && IsPublic(path)
  {
    var source := NormalizeVaultPath(canvasPath).value;
    var trimmed := StripAngleBrackets(Trim(rawTarget));
    hide NormalizeVaultPath, Trim, StripAngleBrackets, DelimiterAt, HasScheme, Lower, DecodeUriComponent, Portable, ResolveDecoded;
    DecodedIsPublic(source, Portable(DecodeUriComponent(trimmed[..DelimiterAt(trimmed)]).value));
  }

  lemma {:induction false} DecodedIsPublic(sourcePath: string, decoded: string)
    requires ResolveDecoded(sourcePath, decoded).Resolved?
    ensures var path := ResolveDecoded(sourcePath, decoded).path; IsVaultPath(path) && IsPublic(path)
  {
    hide NormalizeVaultPath, PosixJoin, StripSlashes, Dirname, IsVaultPath;
    var candidate := if StartsWith(decoded, "/") || !IsSourceRelative(decoded) then StripSlashes(decoded) else PosixJoin(Dirname(sourcePath), decoded);
    NormalizedIsVaultPath(candidate);
    PublicOrPrivate(NormalizeVaultPath(candidate).value);
  }

  /** A letter and then letters, digits, `+`, `.` or `-` stand before a colon. */
  ghost predicate Schemed(s: string) {
    exists k: nat :: 0 < k < |s| && s[k] == ':' && IsLetter(s[0])
      && forall j :: 0 < j < k ==> IsLetter(s[j]) || IsDigit(s[j]) || s[j] == '+' || s[j] == '.' || s[j] == '-'
  }

  ghost predicate EndsAt(s: string, k: nat) {
    k < |s| && s[k] == ':' && forall j :: 0 <= j < k ==> IsSchemeChar(s[j])
  }

  lemma EndsLater(s: string, k: nat)
    requires s != ""
    ensures EndsAt(s, k + 1) <==> IsSchemeChar(s[0]) && EndsAt(s[1..], k)
  {
    assert forall j :: 0 <= j < |s| - 1 ==> s[1..][j] == s[j + 1];
    if IsSchemeChar(s[0]) && EndsAt(s[1..], k) {
      forall j | 0 <= j < k + 1 ensures IsSchemeChar(s[j]) {
        assert j > 0 ==> s[j] == s[1..][j - 1];
      }
    }
  }

  lemma {:induction false} SchemeEndsIff(s: string)
    ensures SchemeEnds(s) <==> exists k: nat :: EndsAt(s, k)
    decreases |s|
  {
    if s != "" {
      SchemeEndsIff(s[1..]);
      assert EndsAt(s, 0) <==> s[0] == ':';
      forall k: nat ensures EndsAt(s, k + 1) <==> IsSchemeChar(s[0]) && EndsAt(s[1..], k) {
        EndsLater(s, k);
      }
      hide EndsAt, IsSchemeChar;
      forall k: nat | EndsAt(s, k) ensures k == 0 || EndsAt(s[1..], k - 1) {
        if k > 0 { assert EndsAt(s, (k - 1) + 1); }
      }
    }
  }

  lemma {:induction false} SchemedIff(s: string)
    ensures HasScheme(s) <==> Schemed(s)
  {
    if s != "" && IsLetter(s[0]) {
      SchemeEndsIff(s[1..]);
      forall k: nat ensures EndsAt(s, k + 1) <==> EndsAt(s[1..], k) {
        EndsLater(s, k);
      }
      if HasScheme(s) {
        var k: nat :| EndsAt(s[1..], k);
        assert EndsAt(s, k + 1);
        assert s[k + 1] == ':' && forall j :: 0 < j < k + 1 ==> IsLetter(s[j]) || IsDigit(s[j]) || s[j] == '+' || s[j] == '.' || s[j] == '-';
      }
      if Schemed(s) {
        var k: nat :| 0 < k < |s| && s[k] == ':' && forall j :: 0 < j < k ==> IsLetter(s[j]) || IsDigit(s[j]) || s[j] == '+' || s[j] == '.' || s[j] == '-';
        EndsLater(s, k - 1);
        assert EndsAt(s[1..], k - 1);
      }
    }
  }

  /** White space around a target, and around it once more within angle brackets. */
  datatype Frame = Frame(left: string, right: string, angled: bool, innerLeft: string, innerRight: string)

  ghost predicate AllSpace(s: string) {
    forall c :: c in s ==> IsSpace(c)
  }

  function Framed(frame: Frame, target: string): string {
    frame.left + (if frame.angled then "<" + (frame.innerLeft + target + frame.innerRight) + ">" else target) + frame.right
  }

  /** The frame can be told from the target. */
  ghost predicate Frames(frame: Frame, target: string) {
    && AllSpace(frame.left) && AllSpace(frame.right) && AllSpace(frame.innerLeft) && AllSpace(frame.innerRight)
    && target != "" && !IsSpace(target[0]) && !IsSpace(target[|target| - 1])
    && (target[0] == '<' && target[|target| - 1] == '>' && |target| >= 2 ==> frame.angled)
  }

  lemma {:induction false} FrameIsStripped(frame: Frame, target: string)
    requires Frames(frame, target)
    ensures StripAngleBrackets(Trim(Framed(frame, target))) == target
  {
    hide Trim;
    if frame.angled {
      var within := frame.innerLeft + target + frame.innerRight;
      AngledIs(within);
      TrimPadded(frame.left, "<" + within + ">", frame.right);
      TrimPadded(frame.innerLeft, target, frame.innerRight);
    } else {
      TrimPadded(frame.left, target, frame.right);
      AngledIff(target);
    }
  }

  lemma AngledIs(within: string)
    ensures var s := "<" + within + ">";
            |s| >= 2 && s[0] == '<' && s[|s| - 1] == '>' && s[1..|s| - 1] == within && StartsWith(s, "<") && EndsWith(s, ">")
            && !IsSpace(s[0]) && !IsSpace(s[|s| - 1])
  {
    AngledIff("<" + within + ">");
  }

  /** Every reference is a target in a frame. */
  lemma {:induction false} EveryReferenceIsFramed(rawTarget: string) returns (frame: Frame, target: string)
    ensures Framed(frame, target) == rawTarget && target == StripAngleBrackets(Trim(rawTarget))
    ensures target == "" || Frames(frame, target)
  {
    hide Trim;
    var left, right := TrimParts(rawTarget);
    var trimmed := Trim(rawTarget);
    AngledIff(trimmed);
    if StartsWith(trimmed, "<") && EndsWith(trimmed, ">") && |trimmed| >= 2 {
      var within := trimmed[1..|trimmed| - 1];
      var innerLeft, innerRight := TrimParts(within);
      frame, target := Frame(left, right, true, innerLeft, innerRight), Trim(within);
    } else {
      frame, target := Frame(left, right, false, "", ""), trimmed;
    }
  }

  lemma AngledIff(s: string)
    ensures var angled := StartsWith(s, "<") && EndsWith(s, ">") && |s| >= 2;
            && (angled <==> |s| >= 2 && s[0] == '<' && s[|s| - 1] == '>')
            && (angled ==> s == "<" + s[1..|s| - 1] + ">")
  {
    assert s != "" ==> s[|s| - 1..] == [s[|s| - 1]];
  }

  /** Without a target, or from anything but a canvas in the vault, nothing is resolved. */
  lemma NoReference(canvasPath: string, rawTarget: string)
    requires StripAngleBrackets(Trim(rawTarget)) == "" || NormalizeVaultPath(canvasPath).None?
             || !EndsWith(Lower(NormalizeVaultPath(canvasPath).value), ".canvas")
    ensures ResolveCanvasAttachmentTarget(canvasPath, rawTarget) == Rejected(Invalid)
  {
  }

  /** A target in its parts: the encoded path, and the query or fragment. */
  ghost predicate Parts(target: string, body: string, suffix: string) {
    target == body + suffix && '?' !in body && '#' !in body && (suffix != "" ==> suffix[0] == '?' || suffix[0] == '#')
  }

  lemma {:induction false} DelimiterIsFirst(body: string, suffix: string)
    requires Parts(body + suffix, body, suffix)
    ensures DelimiterAt(body + suffix) == |body|
    decreases |body|
  {
    if body == "" {
      assert body + suffix == suffix;
    } else {
      ConsConcat(body, suffix);
      assert body[0] in body;
      DelimiterIsFirst(body[1..], suffix);
    }
  }

  /** What the reader makes of any target whatever, once the frame, the query and the escapes are off. */
  lemma {:induction false} AnyReference(canvasPath: string, source: string, frame: Frame, target: string, body: string, suffix: string)
    requires NormalizeVaultPath(canvasPath) == Some(source) && EndsWith(Lower(source), ".canvas")
    requires Frames(frame, target) && Parts(target, body, suffix)
    ensures var resolution := ResolveCanvasAttachmentTarget(canvasPath, Framed(frame, target));
            if |target| > 4096 || '\0' in target then resolution == Rejected(Invalid)
            else if Schemed(target) || "//" <= target then resolution == Rejected(External)
            else
              && ((forall text :: !Spells(body, text)) ==> resolution == Rejected(Invalid))
              && (forall text :: Spells(body, text) ==> resolution == ResolveDecoded(source, Portable(text)))
  {
    FrameIsStripped(frame, target);
    DelimiterIsFirst(body, suffix);
    SchemedIff(target);
    assert (body + suffix)[..|body|] == body;
    hide NormalizeVaultPath, Lower, Trim, StripAngleBrackets, DelimiterAt, HasScheme, Schemed, DecodeUriComponent, Portable,
         ResolveDecoded, Frames, Framed, EndsWith, Spells;
    forall text ensures DecodeUriComponent(body) == Some(text) <==> Spells(body, text) {
      DecodesIffSpelled(body, text);
    }
  }

  function Slashes(n: nat): (s: string)
    ensures |s| == n
  {
    if n == 0 then "" else "/" + Slashes(n - 1)
  }

  lemma {:induction false} SlashesStripped(n: nat, path: string)
    requires path != "" && path[0] != '/'
    ensures StripSlashes(Slashes(n) + path) == path
    decreases n
  {
    if n == 0 {
      assert Slashes(n) + path == path;
    } else {
      assert (Slashes(n) + path)[1..] == Slashes(n - 1) + path;
      SlashesStripped(n - 1, path);
    }
  }

  /** A path of the vault, with any number of slashes in front, is read from the vault root. */
  lemma {:induction false} RootReference(source: string, n: nat, path: string)
    requires IsVaultPath(path)
    ensures ResolveDecoded(source, Slashes(n) + path) ==
              if DriveAbsolute(path) then Rejected(if n == 0 then Invalid else OutsideVault)
              else if IsPublic(path) then Resolved(path) else Rejected(Private)
  {
    NormalizeAgain(path);
    RootCandidate(path);
    RootSpelling(n, path);
    PublicOrPrivate(path);
    hide NormalizeVaultPath, IsVaultPath, PosixJoin, IsPrivateVaultPath, IsPublic, Dirname, StripSlashes, IsSourceRelative, DriveAbsolute, Slashes,
         StartsWith, StartsWithDrive;
  }

  lemma {:induction false} RootSpelling(n: nat, path: string)
    requires path != "" && path[0] != '/' && '\0' !in path
    ensures var decoded := Slashes(n) + path;
            && decoded != "" && '\0' !in decoded && StripSlashes(decoded) == path
            && (if n == 0 then decoded == path else StartsWith(decoded, "/") && !StartsWithDrive(decoded))
  {
    SlashesStripped(n, path);
    SlashesOnly(n);
    if n > 0 {
      assert (Slashes(n) + path)[0] == '/';
    } else {
      assert Slashes(n) + path == path;
    }
  }

  lemma {:induction false} SlashesOnly(n: nat)
    ensures '\0' !in Slashes(n)
  {
    if n > 0 { SlashesOnly(n - 1); }
  }

  lemma {:induction false} ClimbAll(n: nat, kept: seq<string>, rest: seq<string>)
    requires AllPlain(rest) && forall x :: x in kept ==> x == ".."
    ensures Resolve(Up(n) + rest, kept, true) == kept + (Up(n) + rest)
    decreases n
  {
    if n == 0 {
      assert Up(0) + rest == rest;
      ResolvePlain(rest, kept, true);
    } else {
      ClimbStep(Up(n - 1) + rest, kept);
      Associative([".."], Up(n - 1), rest);
      Associative(kept, [".."], Up(n - 1) + rest);
      ClimbAll(n - 1, kept + [".."], rest);
    }
  }

  lemma ClimbStep(segments: seq<string>, kept: seq<string>)
    requires forall x :: x in kept ==> x == ".."
    ensures Resolve([".."] + segments, kept, true) == Resolve(segments, kept + [".."], true)
  {
    assert kept != [] ==> kept[|kept| - 1] in kept;
    assert ([".."] + segments)[1..] == segments;
  }

  /** Climbing `n` folders from `folder` and then going down along `rest`. */
  lemma {:induction false} Climb(folder: seq<string>, n: nat, rest: seq<string>)
    requires AllPlain(folder) && AllPlain(rest)
    ensures Resolve(Up(n) + rest, folder, true)
         == if n <= |folder| then folder[..|folder| - n] + rest else Up(n - |folder|) + rest
  {
    hide Resolve, AllPlain;
    if n <= |folder| { ClimbWithin(folder, n, rest); } else { ClimbOut(folder, n - |folder|, rest); }
  }

  lemma {:induction false} ClimbWithin(folder: seq<string>, n: nat, rest: seq<string>)
    requires AllPlain(folder) && AllPlain(rest) && n <= |folder|
    ensures Resolve(Up(n) + rest, folder, true) == folder[..|folder| - n] + rest
  {
    hide Resolve, AllPlain, Up;
    var top, left := folder[..|folder| - n], folder[|folder| - n..];
    assert top + left == folder;
    PlainConcat(top, left);
    ResolveUp(left, top);
    ResolveConcat(Up(n), rest, folder);
    ResolvePlain(rest, top, true);
  }

  lemma {:induction false} ClimbOut(folder: seq<string>, above: nat, rest: seq<string>)
    requires AllPlain(folder) && AllPlain(rest) && above > 0
    ensures Resolve(Up(|folder| + above) + rest, folder, true) == Up(above) + rest
  {
    hide Resolve, AllPlain, Up;
    UpSplit(|folder|, above);
    Associative(Up(|folder|), Up(above), rest);
    ResolveConcat(Up(|folder|), Up(above) + rest, folder);
    assert [] + folder == folder;
    ResolveUp(folder, []);
    ClimbAll(above, [], rest);
    assert [] + (Up(above) + rest) == Up(above) + rest;
  }

  lemma {:induction false} UpSplit(a: nat, b: nat)
    ensures Up(a + b) == Up(a) + Up(b)
  {
    if a > 0 { UpSplit(a - 1, b); } else { assert Up(0) + Up(b) == Up(b); }
  }

  /** `./` and then climbing and going down; without climbing, the dot has to be spelled. */
  function Steps(dot: bool, n: nat, rest: seq<string>): seq<string> {
    (if dot then ["."] else []) + Up(n) + rest
  }

  /**
   * A relative reference is read from the folder of the canvas: climbing further than to the vault
   * root, or to nothing but the root, leaves the vault.
   */
  lemma {:induction false} RelativeReference(source: string, dot: bool, n: nat, rest: seq<string>)
    requires IsVaultPath(source) && AllPlain(rest) && (dot || n > 0)
    ensures var folder := DirSegments(source);
            var resolution := ResolveDecoded(source, Join(Steps(dot, n, rest)));
            if n > |folder| || (n == |folder| && rest == []) then resolution == Rejected(OutsideVault)
            else
              var path := Join(folder[..|folder| - n] + rest);
              resolution == if DriveAbsolute(path) then Rejected(OutsideVault)
                            else if IsPublic(path) then Resolved(path) else Rejected(Private)
  {
    var folder, steps := DirSegments(source), Steps(dot, n, rest);
    var to := if n <= |folder| then folder[..|folder| - n] + rest else Up(n - |folder|) + rest;
    StepsResolve(source, dot, n, rest);
    FolderResolves(source);
    StepsAreNames(dot, n, rest);
    ToIsPlain(folder, n, rest);
    hide Resolve, AllPlain, Up, ResolveDecoded, Join, Split, IsPublic, DriveAbsolute, Steps;
    if n > |folder| || (n == |folder| && rest == []) {
      OutsideReference(source, steps, to);
    } else {
      InsideReference(source, steps, to);
    }
  }

  lemma {:induction false} ToIsPlain(folder: seq<string>, n: nat, rest: seq<string>)
    requires AllPlain(folder) && AllPlain(rest)
    ensures n <= |folder| ==> AllPlain(folder[..|folder| - n] + rest)
    ensures n > |folder| ==>
      var to := Up(n - |folder|) + rest; to[0] == ".." && forall x :: x in to ==> '/' !in x && '\\' !in x && '\0' !in x
  {
    PlainHasNoSlash(rest);
    if n <= |folder| {
      var top := folder[..|folder| - n];
      assert top + folder[|folder| - n..] == folder;
      PlainConcat(top, folder[|folder| - n..]);
      PlainConcat(top, rest);
    }
  }

  lemma {:induction false} StepsResolve(source: string, dot: bool, n: nat, rest: seq<string>)
    requires IsVaultPath(source) && AllPlain(rest)
    ensures var folder := DirSegments(source);
            Resolve(Steps(dot, n, rest), folder, true) == if n <= |folder| then folder[..|folder| - n] + rest else Up(n - |folder|) + rest
  {
    FolderResolves(source);
    hide AllPlain, Up, Split, Resolve, DirSegments, Dirname, Steps;
    var folder := DirSegments(source);
    StepsDot(dot, n, rest);
    Climb(folder, n, rest);
    if dot { DotStep(Up(n) + rest, folder); }
  }

  lemma StepsDot(dot: bool, n: nat, rest: seq<string>)
    ensures Steps(dot, n, rest) == if dot then ["."] + (Up(n) + rest) else Up(n) + rest
  {
    hide Up;
    if dot { Associative(["."], Up(n), rest); } else { assert [] + Up(n) == Up(n); }
  }

  lemma DotStep(segments: seq<string>, folder: seq<string>)
    ensures Resolve(["."] + segments, folder, true) == Resolve(segments, folder, true)
  {
    assert (["."] + segments)[1..] == segments;
  }

  lemma {:induction false} StepsAreNames(dot: bool, n: nat, rest: seq<string>)
    requires AllPlain(rest) && (dot || n > 0)
    ensures var steps := Steps(dot, n, rest);
            && steps != [] && (steps[0] == "." || steps[0] == "..")
            && forall x :: x in steps ==> x != "" && '/' !in x && '\\' !in x && '\0' !in x
  {
    PlainHasNoSlash(rest);
  }

  lemma {:induction false} OutsideReference(source: string, steps: seq<string>, to: seq<string>)
    requires IsVaultPath(source)
    requires steps != [] && (steps[0] == "." || steps[0] == "..")
    requires forall x :: x in steps ==> x != "" && '/' !in x && '\\' !in x && '\0' !in x
    requires Resolve(steps, DirSegments(source), true) == to
    requires to != [] ==> to[0] == ".." && forall x :: x in to ==> '/' !in x && '\\' !in x && '\0' !in x
    ensures ResolveDecoded(source, Join(steps)) == Rejected(OutsideVault)
  {
    JoinFromFolder(source, steps, to);
    JoinChars(steps);
    JoinHead(steps);
    ClimbingIsRejected(to);
    hide NormalizeVaultPath, IsVaultPath, PosixJoin, IsPrivateVaultPath, Dirname, StripSlashes, DriveAbsolute, Join, Split, Portable, Resolve;
  }

  lemma {:induction false} ClimbingIsRejected(to: seq<string>)
    requires to != [] ==> to[0] == ".." && forall x :: x in to ==> '/' !in x && '\\' !in x && '\0' !in x
    ensures NormalizeVaultPath(if to == [] then "." else Join(to)) == None
  {
    if to != [] {
      JoinChars(to);
      SplitJoin(to);
      assert to[0] in to;
    } else {
      SplitSingle(".");
      assert ["."][1..] == [] && Named([]) == [];
    }
    var joined := if to == [] then "." else Join(to);
    PortableIsPlain(joined);
    NormalizedExactly(joined);
    hide NormalizeVaultPath, Join, Split, Portable;
  }

  lemma {:induction false} InsideReference(source: string, steps: seq<string>, to: seq<string>)
    requires IsVaultPath(source) && to != [] && AllPlain(to)
    requires steps != [] && (steps[0] == "." || steps[0] == "..")
    requires forall x :: x in steps ==> x != "" && '/' !in x && '\\' !in x && '\0' !in x
    requires Resolve(steps, DirSegments(source), true) == to
    ensures ResolveDecoded(source, Join(steps)) ==
              if DriveAbsolute(Join(to)) then Rejected(OutsideVault)
              else if IsPublic(Join(to)) then Resolved(Join(to)) else Rejected(Private)
  {
    NoDotPrefix(to);
    PublicOrPrivate(Join(to));
    hide Resolve, AllPlain, ResolveDecoded, Join, Split, IsPublic, DriveAbsolute, IsPrivateVaultPath;
    ResolveFromFolder(source, steps, Join(to));
  }
}
