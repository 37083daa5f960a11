/** Rewriting the attachment references of a canvas in place (src/application/json-canvas-reference-rewrite.ts). */
module CanvasRewrite {
  import opened Options
  import opened JsText
  import opened VaultPath
  import opened Splices
  import opened Quoting
  import opened CanvasReference
  import RightToLeft
  import Percent

  /** A string literal of the text that is the file or the background of a node. */
  datatype Token = Token(nodeIndex: nat, field: string, offset: nat, length: nat, value: string)

  /** The field of a node that refers to an attachment. */
  datatype Reference = Reference(field: string, value: string)

  /** `identity` folds a path for comparison; `mayRefer` judges a reference that does not resolve. */
  datatype Context = Context(canvasPath: string, sourcePath: string, targetPath: string,
                             identity: string -> string, mayRefer: string -> bool)

  datatype Failure = Unreadable | UnsafeReference | Unsupported

  datatype Step = Skip | Fail(failure: Failure) | Replace(token: Token, after: string)

  datatype Rewrite = Rewrite(nodeIndex: nat, before: string, after: string)

  datatype Outcome = Blocked(nodeIndex: nat, failure: Failure) | Ready(content: string, rewrites: seq<Rewrite>)

  function Matches(tokens: seq<Token>, nodeIndex: nat, field: string): seq<Token> {
    if tokens == [] then []
    else (if tokens[0].nodeIndex == nodeIndex && tokens[0].field == field then [tokens[0]] else []) + Matches(tokens[1..], nodeIndex, field)
  }

  /** What one node calls for. */
  function PlanNode(tokens: seq<Token>, nodeIndex: nat, node: Option<Reference>, context: Context): Step {
    if node.None? then Skip
    else
      var value := node.value.value;
      var matches := Matches(tokens, nodeIndex, node.value.field);
      if |matches| != 1 || matches[0].value != value then Fail(Unreadable)
      else
        var resolution := ResolveCanvasAttachmentTarget(context.canvasPath, value);
        var refers := if resolution.Resolved? then context.identity(resolution.path) == context.identity(context.sourcePath)
                      else context.mayRefer(value);
        if !refers then Skip
        else if !resolution.Resolved? then Fail(UnsafeReference)
        else
          var after := ReplacementTarget(context.canvasPath, value, context.targetPath);
          if after.None? then Fail(Unsupported) else Replace(matches[0], after.value)
  }

  function EditOf(step: Step): Edit<char>
    requires step.Replace?
  {
    Edit(step.token.offset, step.token.offset + step.token.length, Quote(step.after))
  }

  function EditsOf(tokens: seq<Token>, nodes: seq<Option<Reference>>, n: nat, context: Context): seq<Edit<char>>
    requires n <= |nodes|
  {
    if n == 0 then []
    else
      var step := PlanNode(tokens, n - 1, nodes[n - 1], context);
      EditsOf(tokens, nodes, n - 1, context) + if step.Replace? then [EditOf(step)] else []
  }

  function RewritesOf(tokens: seq<Token>, nodes: seq<Option<Reference>>, n: nat, context: Context): seq<Rewrite>
    requires n <= |nodes|
  {
    if n == 0 then []
    else
      var step := PlanNode(tokens, n - 1, nodes[n - 1], context);
      RewritesOf(tokens, nodes, n - 1, context) + if step.Replace? then [Rewrite(n - 1, step.token.value, step.after)] else []
  }

  /** The literals as the visitor meets them: in text order, apart from each other, node by node. */
  ghost predicate InTextOrder(tokens: seq<Token>, limit: nat) {
    && (forall i :: 0 <= i < |tokens| ==> tokens[i].length > 0 && tokens[i].offset + tokens[i].length <= limit)
    && forall i, j :: 0 <= i < j < |tokens| ==>
         tokens[i].nodeIndex <= tokens[j].nodeIndex && tokens[i].offset + tokens[i].length <= tokens[j].offset
  }

  ghost predicate NoneFails(tokens: seq<Token>, nodes: seq<Option<Reference>>, n: nat, context: Context)
    requires n <= |nodes|
  {
    forall i: nat :: i < n ==> !PlanNode(tokens, i, nodes[i], context).Fail?
  }

  lemma {:induction false} MatchesAre(tokens: seq<Token>, nodeIndex: nat, field: string)
    ensures forall t :: t in Matches(tokens, nodeIndex, field) ==> t in tokens && t.nodeIndex == nodeIndex && t.field == field
    decreases |tokens|
  {
    if tokens != [] {
      MatchesAre(tokens[1..], nodeIndex, field);
    }
  }

  lemma {:induction false} PlannedToken(tokens: seq<Token>, nodeIndex: nat, node: Option<Reference>, context: Context)
    ensures var step := PlanNode(tokens, nodeIndex, node, context);
            step.Replace? ==>
              && step.token in tokens && step.token.nodeIndex == nodeIndex && node == Some(Reference(step.token.field, step.token.value))
              && ReplacementTarget(context.canvasPath, step.token.value, context.targetPath) == Some(step.after)
              && var before := ResolveCanvasAttachmentTarget(context.canvasPath, step.token.value);
                 before.Resolved? && context.identity(before.path) == context.identity(context.sourcePath)
  {
    hide ResolveCanvasAttachmentTarget, ReplacementTarget;
    if node.Some? {
      MatchesAre(tokens, nodeIndex, node.value.field);
    }
  }

  /** The edits of the first `n` nodes are in order, and end before the literals of later nodes. */
  lemma {:induction false} EditsAreOrdered(tokens: seq<Token>, nodes: seq<Option<Reference>>, n: nat, context: Context, limit: nat)
    requires n <= |nodes| && InTextOrder(tokens, limit)
    ensures var edits := EditsOf(tokens, nodes, n, context);
            && Ordered(edits, 0, limit) && RightToLeft.NoneEmpty(edits)
            && forall t :: t in tokens && t.nodeIndex >= n ==> EndOf(0, edits) <= t.offset
    decreases n
  {
    hide PlanNode, Quote, Ordered, RightToLeft.NoneEmpty, EndOf;
    if n == 0 {
      NothingEdited(limit);
    } else {
      EditsAreOrdered(tokens, nodes, n - 1, context, limit);
      PlannedToken(tokens, n - 1, nodes[n - 1], context);
      var step := PlanNode(tokens, n - 1, nodes[n - 1], context);
      var edits := EditsOf(tokens, nodes, n - 1, context);
      if !step.Replace? {
        assert EditsOf(tokens, nodes, n, context) == edits;
      } else {
        TokenFits(tokens, limit, step.token);
        OneMoreEdit(edits, EditOf(step), limit);
        forall t | t in tokens && t.nodeIndex >= n ensures step.token.offset + step.token.length <= t.offset {
          LaterToken(tokens, limit, step.token, t);
        }
      }
    }
  }

  lemma NothingEdited(limit: nat)
    ensures Ordered<char>([], 0, limit) && RightToLeft.NoneEmpty([]) && EndOf<char>(0, []) == 0
  {
  }

  lemma OneMoreEdit(edits: seq<Edit<char>>, e: Edit<char>, limit: nat)
    requires Ordered(edits, 0, limit) && RightToLeft.NoneEmpty(edits) && EndOf(0, edits) <= e.start < e.end <= limit
    ensures Ordered(edits + [e], 0, limit) && RightToLeft.NoneEmpty(edits + [e]) && EndOf(0, edits + [e]) == e.end
    ensures edits + [] == edits
  {
    OrderedJoin(edits, e, 0, limit);
    hide Ordered;
  }

  lemma TokenFits(tokens: seq<Token>, limit: nat, token: Token)
    requires InTextOrder(tokens, limit) && token in tokens
    ensures token.length > 0 && token.offset + token.length <= limit
  {
  }

  lemma {:induction false} LaterToken(tokens: seq<Token>, limit: nat, a: Token, b: Token)
    requires InTextOrder(tokens, limit) && a in tokens && b in tokens && a.nodeIndex < b.nodeIndex
    ensures a.offset + a.length <= b.offset
  {
    var i :| 0 <= i < |tokens| && tokens[i] == a;
    var j :| 0 <= j < |tokens| && tokens[j] == b;
    assert i < j;
  }

  /**
   * Replaces exactly the literals of the nodes that refer to the moved attachment: the result is
   * the original text with those literals exchanged, and nothing else.
   */
  method RewriteReferences(bom: string, body: string, tokens: seq<Token>, nodes: seq<Option<Reference>>, context: Context)
      returns (r: Outcome)
    requires InTextOrder(tokens, |body|)
    ensures r.Ready? <==> NoneFails(tokens, nodes, |nodes|, context)
    ensures r.Blocked? ==>
      r.nodeIndex < |nodes| && NoneFails(tokens, nodes, r.nodeIndex, context)
      && PlanNode(tokens, r.nodeIndex, nodes[r.nodeIndex], context) == Fail(r.failure)
    ensures r.Ready? ==>
      var edits := EditsOf(tokens, nodes, |nodes|, context);
      Ordered(edits, 0, |body|) && r.content == bom + Splice(body, 0, edits)
      && r.rewrites == RewritesOf(tokens, nodes, |nodes|, context)
  {
    hide PlanNode, InTextOrder, Splice, Ordered, Quote;
    var replacements: seq<Edit<char>> := [];
    var rewrites: seq<Rewrite> := [];
    for nodeIndex := 0 to |nodes|
      invariant NoneFails(tokens, nodes, nodeIndex, context)
      invariant replacements == EditsOf(tokens, nodes, nodeIndex, context)
      invariant rewrites == RewritesOf(tokens, nodes, nodeIndex, context)
    {
      var step := PlanNode(tokens, nodeIndex, nodes[nodeIndex], context);
      if step.Fail? {
        return Blocked(nodeIndex, step.failure);
      }
      if step.Replace? {
        replacements := replacements + [EditOf(step)];
        rewrites := rewrites + [Rewrite(nodeIndex, step.token.value, step.after)];
      }
    }
    EditsAreOrdered(tokens, nodes, |nodes|, context, |body|);
    var rewritten := RightToLeft.ApplyRewrites(body, replacements, replacements);
    r := Ready(bom + rewritten, rewrites);
  }

  /**
   * Every rewrite replaces a reference to the moved attachment by one that reads, from the same
   * canvas, as exactly the target, whenever the target is one the reader admits.
   */
  lemma {:induction false} RewritesFollow(tokens: seq<Token>, nodes: seq<Option<Reference>>, n: nat, context: Context, w: Rewrite)
    requires n <= |nodes| && w in RewritesOf(tokens, nodes, n, context)
    requires IsVaultPath(context.canvasPath) && !DriveAbsolute(context.canvasPath) && EndsWith(Lower(context.canvasPath), ".canvas")
    requires IsVaultPath(context.targetPath)
    ensures var before := ResolveCanvasAttachmentTarget(context.canvasPath, w.before);
            before.Resolved? && context.identity(before.path) == context.identity(context.sourcePath)
    ensures Unquote(Quote(w.after)) == Some(w.after) && Suffix(w.after) == Suffix(w.before)
    ensures ResolveCanvasAttachmentTarget(context.canvasPath, w.after) == Resolved(context.targetPath)
      <==> |w.after| <= MAX_TARGET_LENGTH && Reachable(context.targetPath)
           && (SpelledRelative(w.before) ==> RelativeReadable(context.canvasPath, context.targetPath))
    decreases n
  {
    hide PlanNode, Quote, Unquote, ResolveCanvasAttachmentTarget, ReplacementTarget, Reachable, RelativeReadable, SpelledRelative, IsVaultPath,
         Lower, DriveAbsolute, Suffix, EndsWith;
    var step := PlanNode(tokens, n - 1, nodes[n - 1], context);
    PlannedToken(tokens, n - 1, nodes[n - 1], context);
    if step.Replace? && w == Rewrite(n - 1, step.token.value, step.after) {
      ResolvedHasNoNul(context.canvasPath, w.before, context.targetPath);
      PrintedIsReadBack(context.canvasPath, w.before, context.targetPath);
      QuoteReadsBack(w.after);
    } else {
      RewritesFollow(tokens, nodes, n - 1, context, w);
    }
  }

  // ---------- which references are rewritten ----------

  predicate Belongs(token: Token, nodeIndex: nat, field: string) {
    token.nodeIndex == nodeIndex && token.field == field
  }

  /** Just one literal of the text stands for the reference of the node, and it says the same. */
  ghost predicate OneLiteral(tokens: seq<Token>, nodeIndex: nat, reference: Reference) {
    exists k :: 0 <= k < |tokens| && IsLiteral(tokens, k, nodeIndex, reference)
  }

  ghost predicate IsLiteral(tokens: seq<Token>, k: nat, nodeIndex: nat, reference: Reference)
    requires k < |tokens|
  {
    && Belongs(tokens[k], nodeIndex, reference.field) && tokens[k].value == reference.value
    && forall j :: 0 <= j < |tokens| && j != k ==> !Belongs(tokens[j], nodeIndex, reference.field)
  }

  /** The reference means the attachment that moves, as far as it can be told. */
  predicate Concerns(context: Context, value: string) {
    match ResolveCanvasAttachmentTarget(context.canvasPath, value)
    case Resolved(path) => context.identity(path) == context.identity(context.sourcePath)
    case Rejected(_) => context.mayRefer(value)
  }

  /** White space around it, a backslash, an angle bracket or a bad escape keeps a reference from being replaced. */
  ghost predicate Replaceable(value: string) {
    && (value != "" ==> !IsSpace(value[0]) && !IsSpace(value[|value| - 1]) && value[0] != '<' && value[|value| - 1] != '>')
    && '\\' !in value && exists text :: Percent.Spells(value[..DelimiterAt(value)], text)
  }

  lemma {:induction false} NoneMatch(tokens: seq<Token>, nodeIndex: nat, field: string)
    ensures Matches(tokens, nodeIndex, field) == [] <==> forall j :: 0 <= j < |tokens| ==> !Belongs(tokens[j], nodeIndex, field)
    decreases |tokens|
  {
    if tokens != [] { NoneMatch(tokens[1..], nodeIndex, field); }
  }

  lemma {:induction false} OneMatches(tokens: seq<Token>, nodeIndex: nat, reference: Reference)
    ensures var matches := Matches(tokens, nodeIndex, reference.field);
            && (OneLiteral(tokens, nodeIndex, reference) <==> |matches| == 1 && matches[0].value == reference.value)
            && (OneLiteral(tokens, nodeIndex, reference) ==> IsMatch(tokens, nodeIndex, reference, matches[0]))
    decreases |tokens|
  {
    if tokens != [] {
      var rest := tokens[1..];
      OneMatches(rest, nodeIndex, reference);
      NoneMatch(rest, nodeIndex, reference.field);
      var first := if Belongs(tokens[0], nodeIndex, reference.field) then [tokens[0]] else [];
      assert Matches(tokens, nodeIndex, reference.field) == first + Matches(rest, nodeIndex, reference.field);
      hide Matches;
      LiteralInRest(tokens, nodeIndex, reference);
    }
  }

  ghost predicate IsMatch(tokens: seq<Token>, nodeIndex: nat, reference: Reference, token: Token) {
    exists k :: 0 <= k < |tokens| && IsLiteral(tokens, k, nodeIndex, reference) && tokens[k] == token
  }

  lemma {:induction false} LiteralInRest(tokens: seq<Token>, nodeIndex: nat, reference: Reference)
    requires tokens != []
    ensures Belongs(tokens[0], nodeIndex, reference.field) ==>
      (OneLiteral(tokens, nodeIndex, reference) <==>
         tokens[0].value == reference.value && forall j :: 0 <= j < |tokens[1..]| ==> !Belongs(tokens[1..][j], nodeIndex, reference.field))
      && (OneLiteral(tokens, nodeIndex, reference) ==> IsMatch(tokens, nodeIndex, reference, tokens[0]))
    ensures !Belongs(tokens[0], nodeIndex, reference.field) ==>
      (OneLiteral(tokens, nodeIndex, reference) <==> OneLiteral(tokens[1..], nodeIndex, reference))
      && forall token :: IsMatch(tokens[1..], nodeIndex, reference, token) ==> IsMatch(tokens, nodeIndex, reference, token)
  {
    hide Belongs;
    assert forall j :: 0 <= j < |tokens[1..]| ==> tokens[1..][j] == tokens[j + 1];
    if Belongs(tokens[0], nodeIndex, reference.field) {
      if tokens[0].value == reference.value && (forall j :: 0 <= j < |tokens[1..]| ==> !Belongs(tokens[1..][j], nodeIndex, reference.field)) {
        assert forall j :: 0 < j < |tokens| ==> tokens[j] == tokens[1..][j - 1];
        assert IsLiteral(tokens, 0, nodeIndex, reference);
      }
      if OneLiteral(tokens, nodeIndex, reference) {
        var k :| 0 <= k < |tokens| && IsLiteral(tokens, k, nodeIndex, reference);
        assert k == 0;
        forall j | 0 <= j < |tokens[1..]| ensures !Belongs(tokens[1..][j], nodeIndex, reference.field) {
          assert !Belongs(tokens[j + 1], nodeIndex, reference.field);
        }
      }
    } else {
      if OneLiteral(tokens, nodeIndex, reference) {
        var k :| 0 <= k < |tokens| && IsLiteral(tokens, k, nodeIndex, reference);
        assert k > 0;
        LiteralShifts(tokens, k - 1, nodeIndex, reference);
        assert IsLiteral(tokens[1..], k - 1, nodeIndex, reference);
      }
      if OneLiteral(tokens[1..], nodeIndex, reference) {
        var k :| 0 <= k < |tokens[1..]| && IsLiteral(tokens[1..], k, nodeIndex, reference);
        LiteralShifts(tokens, k, nodeIndex, reference);
      }
      forall token | IsMatch(tokens[1..], nodeIndex, reference, token) ensures IsMatch(tokens, nodeIndex, reference, token) {
        var k :| 0 <= k < |tokens[1..]| && IsLiteral(tokens[1..], k, nodeIndex, reference) && tokens[1..][k] == token;
        LiteralShifts(tokens, k, nodeIndex, reference);
        assert IsLiteral(tokens, k + 1, nodeIndex, reference) && tokens[k + 1] == token;
      }
    }
  }

  lemma LiteralShifts(tokens: seq<Token>, k: nat, nodeIndex: nat, reference: Reference)
    requires k < |tokens| - 1 && !Belongs(tokens[0], nodeIndex, reference.field)
    ensures IsLiteral(tokens, k + 1, nodeIndex, reference) <==> IsLiteral(tokens[1..], k, nodeIndex, reference)
  {
    hide Belongs;
    assert forall j :: 0 < j < |tokens| ==> tokens[j] == tokens[1..][j - 1];
    if IsLiteral(tokens, k + 1, nodeIndex, reference) {
      assert forall j :: 0 <= j < |tokens[1..]| ==> tokens[1..][j] == tokens[j + 1];
    }
  }

  lemma {:induction false} ReplacedIff(canvasPath: string, value: string, targetPath: string)
    ensures ReplacementTarget(canvasPath, value, targetPath).Some? <==> Replaceable(value)
  {
    var body := value[..DelimiterAt(value)];
    TrimmedIff(value);
    forall text ensures Percent.DecodeUriComponent(body) == Some(text) <==> Percent.Spells(body, text) {
      Percent.DecodesIffSpelled(body, text);
    }
    assert Percent.DecodeUriComponent(body).Some? ==> Percent.Spells(body, Percent.DecodeUriComponent(body).value);
    assert value != "" ==> (StartsWith(value, "<") <==> value[0] == '<') && value[|value| - 1..] == [value[|value| - 1]];
    hide Trim, Percent.DecodeUriComponent, Percent.Spells, Percent.EncodedPath, PosixRelative, IsSourceRelative;
  }

  /** When a node is left alone, when it blocks and why, and when it is rewritten. */
  lemma {:induction false} NodeOutcome(tokens: seq<Token>, nodeIndex: nat, reference: Reference, context: Context)
    ensures var step := PlanNode(tokens, nodeIndex, Some(reference), context);
            if !OneLiteral(tokens, nodeIndex, reference) then step == Fail(Unreadable)
            else if !Concerns(context, reference.value) then step == Skip
            else if ResolveCanvasAttachmentTarget(context.canvasPath, reference.value).Rejected? then step == Fail(UnsafeReference)
            else if !Replaceable(reference.value) then step == Fail(Unsupported)
            else step.Replace? && IsMatch(tokens, nodeIndex, reference, step.token)
  {
    OneMatches(tokens, nodeIndex, reference);
    ReplacedIff(context.canvasPath, reference.value, context.targetPath);
    hide Matches, OneLiteral, IsMatch, Replaceable, ReplacementTarget, ResolveCanvasAttachmentTarget;
  }

  /** What a rewrite does to the text: the literal of the node, and no other, is replaced by the quoted target. */
  ghost predicate Exchanged(tokens: seq<Token>, edits: seq<Edit<char>>, nodeIndex: nat, reference: Reference, after: string) {
    exists token :: IsMatch(tokens, nodeIndex, reference, token) && Edit(token.offset, token.offset + token.length, Quote(after)) in edits
  }

  /**
   * When nothing blocks, every node whose reference means the moved attachment is rewritten, once,
   * in the list of rewrites and in the text, and no other node is.
   */
  lemma {:induction false} ConcernedAreRewritten(tokens: seq<Token>, nodes: seq<Option<Reference>>, n: nat, context: Context, i: nat)
    requires n <= |nodes| && i < n && NoneFails(tokens, nodes, n, context)
    ensures var rewrites, edits := RewritesOf(tokens, nodes, n, context), EditsOf(tokens, nodes, n, context);
            && |rewrites| == |edits|
            && if nodes[i].Some? && Concerns(context, nodes[i].value.value)
               then exists after :: Rewrite(i, nodes[i].value.value, after) in rewrites && Exchanged(tokens, edits, i, nodes[i].value, after)
               else forall w :: w in rewrites ==> w.nodeIndex != i
    decreases n
  {
    hide PlanNode, Concerns, Quote, IsMatch;
    var step := PlanNode(tokens, n - 1, nodes[n - 1], context);
    EarlierRewrites(tokens, nodes, n - 1, context);
    if i < n - 1 {
      ConcernedAreRewritten(tokens, nodes, n - 1, context, i);
      if nodes[i].Some? && Concerns(context, nodes[i].value.value) {
        var before, earlier := RewritesOf(tokens, nodes, n - 1, context), EditsOf(tokens, nodes, n - 1, context);
        var after :| Rewrite(i, nodes[i].value.value, after) in before && Exchanged(tokens, earlier, i, nodes[i].value, after);
        StaysExchanged(tokens, earlier, EditsOf(tokens, nodes, n, context), i, nodes[i].value, after);
      }
    } else {
      NodeSteps(tokens, n - 1, nodes[n - 1], context);
      if step.Replace? {
        assert Rewrite(i, step.token.value, step.after) in RewritesOf(tokens, nodes, n, context);
        assert EditOf(step) in EditsOf(tokens, nodes, n, context);
        assert Exchanged(tokens, EditsOf(tokens, nodes, n, context), i, nodes[i].value, step.after);
      }
    }
  }

  lemma StaysExchanged(tokens: seq<Token>, a: seq<Edit<char>>, b: seq<Edit<char>>, nodeIndex: nat, reference: Reference, after: string)
    requires Exchanged(tokens, a, nodeIndex, reference, after) && forall e :: e in a ==> e in b
    ensures Exchanged(tokens, b, nodeIndex, reference, after)
  {
  }

  lemma NodeSteps(tokens: seq<Token>, nodeIndex: nat, node: Option<Reference>, context: Context)
    requires !PlanNode(tokens, nodeIndex, node, context).Fail?
    ensures var step := PlanNode(tokens, nodeIndex, node, context);
            && (step.Replace? <==> node.Some? && Concerns(context, node.value.value))
            && (step.Replace? ==> IsMatch(tokens, nodeIndex, node.value, step.token) && step.token.value == node.value.value)
  {
    if node.Some? { NodeOutcome(tokens, nodeIndex, node.value, context); }
    hide Matches, OneLiteral, Replaceable, ReplacementTarget, ResolveCanvasAttachmentTarget, Concerns;
  }

  lemma {:induction false} EarlierRewrites(tokens: seq<Token>, nodes: seq<Option<Reference>>, n: nat, context: Context)
    requires n <= |nodes|
    ensures |RewritesOf(tokens, nodes, n, context)| == |EditsOf(tokens, nodes, n, context)|
    ensures forall w :: w in RewritesOf(tokens, nodes, n, context) ==> w.nodeIndex < n
    decreases n
  {
    hide PlanNode, Quote;
    if n > 0 { EarlierRewrites(tokens, nodes, n - 1, context); }
  }
}
