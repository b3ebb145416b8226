/** Prompt Builder: the handler copies the template and, for every field of
    the request body in order, replaces every literal occurrence of
    `${key}` in the running prompt with that field's value. */
module PromptBuilder {

  /** One field of the JSON request body. */
  datatype Field = Field(key: string, value: string)

  predicate IsIdentifierStart(c: char) {
    ('a' <= c <= 'z') || ('A' <= c <= 'Z') || c == '_'
  }

  predicate IsIdentifierChar(c: char) {
    IsIdentifierStart(c) || ('0' <= c <= '9')
  }

  /** A plain identifier: the keys the model admits. Such a key contains no
      pattern metacharacter, so the pattern built from it matches exactly the
      literal text `${key}`. */
  predicate IsIdentifier(k: string) {
    |k| > 0 && IsIdentifierStart(k[0]) &&
    forall i :: 0 <= i < |k| ==> IsIdentifierChar(k[i])
  }

  /** The request bodies the model admits: identifier keys, each once (a JSON
      object has no repeated keys), and values without `$`, so that no
      replacement pattern such as `$&` is interpreted. */
  predicate WellFormedBody(body: seq<Field>) {
    (forall i :: 0 <= i < |body| ==> IsIdentifier(body[i].key) && '$' !in body[i].value) &&
    (forall i, j :: 0 <= i < j < |body| ==> body[i].key != body[j].key)
  }

  /** The placeholder token for a key. */
  function Token(key: string): string {
    "${" + key + "}"
  }

  predicate OccursAt(s: string, tok: string, i: int) {
    0 <= i && i + |tok| <= |s| && s[i..i + |tok|] == tok
  }

  ghost predicate Occurs(s: string, tok: string) {
    exists i :: OccursAt(s, tok, i)
  }

  lemma OccursInTail(s: string, tok: string)
    requires |s| > 0
    ensures Occurs(s[1..], tok) ==> Occurs(s, tok)
  {
    if Occurs(s[1..], tok) {
      var i :| OccursAt(s[1..], tok, i);
      assert s[i + 1..i + 1 + |tok|] == s[1..][i..i + |tok|];
      assert OccursAt(s, tok, i + 1);
    }
  }

  /** Global literal replacement: scan left to right; at each position where
      `tok` starts, emit `v` and continue after the match, otherwise keep the
      character. Matches never overlap. */
  function ReplaceAll(s: string, tok: string, v: string): string
    requires tok != []
    decreases |s|
  {
    if |s| < |tok| then s
    else if s[..|tok|] == tok then v + ReplaceAll(s[|tok|..], tok, v)
    else [s[0]] + ReplaceAll(s[1..], tok, v)
  }

  /** Text in which the token does not occur comes back unchanged. */
  lemma {:induction false} ReplaceAllNoMatch(s: string, tok: string, v: string)
    requires tok != [] && !Occurs(s, tok)
    ensures ReplaceAll(s, tok, v) == s
    decreases |s|
  {
    if |s| >= |tok| {
      assert s[..|tok|] != tok by {
        assert !OccursAt(s, tok, 0);
      }
      OccursInTail(s, tok);
      ReplaceAllNoMatch(s[1..], tok, v);
      assert [s[0]] + s[1..] == s;
    }
  }

  /** The prompt after the first |body| fields have been applied, one after
      another, each to the prompt the previous ones produced. */
  function Substitute(template: string, body: seq<Field>): string
    decreases |body|
  {
    if body == [] then template
    else
      var f := body[|body| - 1];
      ReplaceAll(Substitute(template, body[..|body| - 1]), Token(f.key), f.value)
  }

  /** The substitution loop of the handler. */
  method BuildPrompt(template: string, body: seq<Field>) returns (prompt: string)
    requires WellFormedBody(body)
    ensures prompt == Substitute(template, body)
    ensures body == [] ==> prompt == template
  {
    prompt := template;
    var i := 0;
    while i < |body|
      invariant 0 <= i <= |body|
      invariant prompt == Substitute(template, body[..i])
    {
      var f := body[i];
      prompt := ReplaceAll(prompt, Token(f.key), f.value);
      i := i + 1;
      assert body[..i][..i - 1] == body[..i - 1];
    }
    assert body[..|body|] == body;
  }

  /** The shape every placeholder token has: one leading `$`, one closing
      `}` at the end, and neither character anywhere else. */
  predicate IsPlaceholder(t: string) {
    |t| >= 2 && t[0] == '$' && t[|t| - 1] == '}' &&
    (forall i :: 0 < i < |t| ==> t[i] != '$') &&
    (forall i :: 0 <= i < |t| - 1 ==> t[i] != '}')
  }

  lemma TokenIsPlaceholder(k: string)
    requires IsIdentifier(k)
    ensures IsPlaceholder(Token(k))
  {
    var t := Token(k);
    assert forall i :: 2 <= i < |t| - 1 ==> t[i] == k[i - 2];
  }

  lemma TokenInjective(j: string, k: string)
    ensures Token(j) == Token(k) ==> j == k
  {
    if Token(j) == Token(k) {
      assert j == Token(j)[2..|Token(j)| - 1];
    }
  }

  lemma ConsAssoc(x: string, m: string, r: string)
    requires x != []
    ensures [x[0]] + (x[1..] + m + r) == x + m + r
  {
    assert [x[0]] + x[1..] == x;
  }

  lemma StepShort(s: string, tok: string, v: string)
    requires tok != [] && |s| < |tok|
    ensures ReplaceAll(s, tok, v) == s
  {
  }

  lemma StepMatch(s: string, tok: string, v: string)
    requires tok != [] && |s| >= |tok| && s[..|tok|] == tok
    ensures ReplaceAll(s, tok, v) == v + ReplaceAll(s[|tok|..], tok, v)
  {
  }

  lemma StepSkip(s: string, tok: string, v: string)
    requires tok != [] && |s| >= |tok| && s[..|tok|] != tok
    ensures ReplaceAll(s, tok, v) == [s[0]] + ReplaceAll(s[1..], tok, v)
  {
  }

  /** A string with no `$` contains no start of a placeholder, so it is
      copied through unchanged. */
  lemma {:induction false} DollarFreePrefix(a: string, y: string, tok: string, v: string)
    requires tok != [] && tok[0] == '$' && '$' !in a
    ensures ReplaceAll(a + y, tok, v) == a + ReplaceAll(y, tok, v)
    decreases |a|
  {
    if a != [] {
      var s := a + y;
      assert a[0] in a;
      assert '$' !in a[1..];
      DollarFreePrefix(a[1..], y, tok, v);
      if |s| >= |tok| {
        assert s[..|tok|][0] == a[0];
        assert s[1..] == a[1..] + y;
        StepSkip(s, tok, v);
        assert [a[0]] + (a[1..] + ReplaceAll(y, tok, v)) == a + ReplaceAll(y, tok, v) by {
          assert [a[0]] + a[1..] == a;
        }
      } else {
        StepShort(s, tok, v);
        StepShort(y, tok, v);
      }
      assert ReplaceAll(a + y, tok, v) == a + ReplaceAll(y, tok, v);
    } else {
      assert a + y == y;
    }
  }

  /** Two different placeholders never match at the same position. */
  lemma DistinctPlaceholdersDiffer(w: string, y: string, tok: string)
    requires IsPlaceholder(w) && IsPlaceholder(tok) && w != tok
    requires |w + y| >= |tok|
    ensures (w + y)[..|tok|] != tok
  {
    var s := w + y;
    if |tok| < |w| {
      assert s[..|tok|][|tok| - 1] == w[|tok| - 1];
    } else if |tok| == |w| {
      var i :| 0 <= i < |w| && w[i] != tok[i];
      assert s[..|tok|][i] == w[i];
    } else {
      assert s[..|tok|][|w| - 1] == '}';
    }
  }

  /** A different placeholder passes through verbatim. */
  lemma OtherPlaceholderKept(w: string, y: string, tok: string, v: string)
    requires IsPlaceholder(w) && IsPlaceholder(tok) && w != tok
    ensures ReplaceAll(w + y, tok, v) == w + ReplaceAll(y, tok, v)
  {
    PlaceholderTail(w);
    DollarFreePrefix(w[1..], y, tok, v);
    if |w + y| >= |tok| {
      DistinctPlaceholdersDiffer(w, y, tok);
      assert (w + y)[1..] == w[1..] + y;
      StepSkip(w + y, tok, v);
      ConsAssoc(w, [], ReplaceAll(y, tok, v));
      assert w + [] == w;
    } else {
      StepShort(w + y, tok, v);
      StepShort(y, tok, v);
    }
  }

  /** After its leading `$`, a placeholder holds no further `$`. */
  lemma PlaceholderTail(w: string)
    requires IsPlaceholder(w)
    ensures '$' !in w[1..]
  {
    var rest := w[1..];
    forall i | 0 <= i < |rest| ensures rest[i] != '$' {
      assert rest[i] == w[i + 1];
    }
  }

  /** The text at the front is the placeholder itself. */
  lemma PlaceholderFirst(w: string, y: string, tok: string, v: string)
    requires IsPlaceholder(w) && IsPlaceholder(tok)
    ensures ReplaceAll(w + y, tok, v) == (if w == tok then v else w) + ReplaceAll(y, tok, v)
  {
    if w == tok {
      var s := w + y;
      assert s[..|tok|] == tok;
      assert s[|tok|..] == y;
      StepMatch(s, tok, v);
    } else {
      OtherPlaceholderKept(w, y, tok, v);
    }
  }

  /** A `$` strictly inside the first |tok| characters rules out a match at
      the front. */
  lemma DollarBlocksFront(s: string, tok: string, p: nat)
    requires IsPlaceholder(tok) && 0 < p < |tok| <= |s| && s[p] == '$'
    ensures s[..|tok|] != tok
  {
    assert s[..|tok|][p] == '$';
  }

  /** Front text shorter than the token cannot hold a match that reaches
      into the placeholder, whose `$` would sit inside the token. */
  lemma ShortFront(x: string, w: string, y: string, tok: string, v: string, mid: string)
    requires IsPlaceholder(w) && IsPlaceholder(tok) && x != [] && |x| < |tok|
    requires ReplaceAll(x[1..] + w + y, tok, v) == ReplaceAll(x[1..], tok, v) + mid + ReplaceAll(y, tok, v)
    requires |w| < |tok| ==> mid == w
    ensures ReplaceAll(x + w + y, tok, v) == ReplaceAll(x, tok, v) + mid + ReplaceAll(y, tok, v)
  {
    if |x + w + y| >= |tok| {
      ShortFrontLongText(x, w, y, tok, v, mid);
    } else {
      StepShort(x + w + y, tok, v);
      StepShort(x, tok, v);
      StepShort(y, tok, v);
    }
  }

  lemma ShortFrontLongText(x: string, w: string, y: string, tok: string, v: string, mid: string)
    requires IsPlaceholder(w) && IsPlaceholder(tok) && x != [] && |x| < |tok| <= |x + w + y|
    requires ReplaceAll(x[1..] + w + y, tok, v) == ReplaceAll(x[1..], tok, v) + mid + ReplaceAll(y, tok, v)
    ensures ReplaceAll(x + w + y, tok, v) == ReplaceAll(x, tok, v) + mid + ReplaceAll(y, tok, v)
  {
    ShortFrontShape(x, w, y, tok);
    StepSkip(x + w + y, tok, v);
    StepShort(x, tok, v);
    StepShort(x[1..], tok, v);
    ConsAssoc(x, mid, ReplaceAll(y, tok, v));
  }

  lemma ShortFrontShape(x: string, w: string, y: string, tok: string)
    requires IsPlaceholder(w) && IsPlaceholder(tok) && x != [] && |x| < |tok| <= |x + w + y|
    ensures (x + w + y)[..|tok|] != tok
    ensures (x + w + y)[1..] == x[1..] + w + y
    ensures (x + w + y)[0] == x[0]
  {
    var s := x + w + y;
    assert s[|x|] == '$';
    DollarBlocksFront(s, tok, |x|);
  }

  /** The token matches at the front of the text before the placeholder. */
  lemma MatchInFront(x: string, w: string, y: string, tok: string, v: string, mid: string)
    requires tok != [] && |x| >= |tok| && x[..|tok|] == tok
    requires ReplaceAll(x[|tok|..] + w + y, tok, v) == ReplaceAll(x[|tok|..], tok, v) + mid + ReplaceAll(y, tok, v)
    ensures ReplaceAll(x + w + y, tok, v) == ReplaceAll(x, tok, v) + mid + ReplaceAll(y, tok, v)
  {
    var s := x + w + y;
    assert s[..|tok|] == x[..|tok|];
    assert s[|tok|..] == x[|tok|..] + w + y;
    StepMatch(s, tok, v);
    StepMatch(x, tok, v);
  }

  /** The token does not match at the front of the text before the placeholder. */
  lemma SkipInFront(x: string, w: string, y: string, tok: string, v: string, mid: string)
    requires tok != [] && |x| >= |tok| && x[..|tok|] != tok
    requires ReplaceAll(x[1..] + w + y, tok, v) == ReplaceAll(x[1..], tok, v) + mid + ReplaceAll(y, tok, v)
    ensures ReplaceAll(x + w + y, tok, v) == ReplaceAll(x, tok, v) + mid + ReplaceAll(y, tok, v)
  {
    var s := x + w + y;
    assert s[..|tok|] == x[..|tok|];
    assert s[1..] == x[1..] + w + y;
    StepSkip(s, tok, v);
    StepSkip(x, tok, v);
  }

  /** ReplaceAround for placeholders given as strings. */
  lemma {:induction false} ReplaceAroundPlaceholder(x: string, w: string, y: string, tok: string, v: string)
    requires IsPlaceholder(w) && IsPlaceholder(tok)
    ensures ReplaceAll(x + w + y, tok, v)
         == ReplaceAll(x, tok, v) + (if w == tok then v else w) + ReplaceAll(y, tok, v)
    decreases |x|
  {
    var mid := if w == tok then v else w;
    if x == [] {
      assert x + w + y == w + y;
      StepShort(x, tok, v);
      PlaceholderFirst(w, y, tok, v);
    } else if |x| < |tok| {
      ReplaceAroundPlaceholder(x[1..], w, y, tok, v);
      assert |w| < |tok| ==> w != tok;
      ShortFront(x, w, y, tok, v, mid);
    } else if x[..|tok|] == tok {
      ReplaceAroundPlaceholder(x[|tok|..], w, y, tok, v);
      MatchInFront(x, w, y, tok, v, mid);
    } else {
      ReplaceAroundPlaceholder(x[1..], w, y, tok, v);
      SkipInFront(x, w, y, tok, v, mid);
    }
  }

  /** Every occurrence of `${k}` is replaced: splitting the text around any
      placeholder `${j}`, the two sides are processed independently and the
      placeholder itself becomes the value when j is k and stays verbatim
      otherwise. */
  lemma ReplaceAround(x: string, j: string, y: string, k: string, v: string)
    requires IsIdentifier(j) && IsIdentifier(k)
    ensures ReplaceAll(x + Token(j) + y, Token(k), v)
         == ReplaceAll(x, Token(k), v) + (if j == k then v else Token(j)) + ReplaceAll(y, Token(k), v)
  {
    TokenIsPlaceholder(j);
    TokenIsPlaceholder(k);
    TokenInjective(j, k);
    ReplaceAroundPlaceholder(x, Token(j), y, Token(k), v);
  }

  /** With no field whose placeholder appears in the template, the prompt is
      the template itself; in particular an empty body leaves it untouched. */
  lemma {:induction false} UnmatchedTemplateUnchanged(template: string, body: seq<Field>)
    requires forall i :: 0 <= i < |body| ==> !Occurs(template, Token(body[i].key))
    ensures Substitute(template, body) == template
    decreases |body|
  {
    if body != [] {
      UnmatchedTemplateUnchanged(template, body[..|body| - 1]);
      ReplaceAllNoMatch(template, Token(body[|body| - 1].key), body[|body| - 1].value);
    }
  }

  /** A placeholder whose name is not a key of the body survives every step
      verbatim, and the text around it is substituted independently. */
  lemma {:induction false} UnknownPlaceholderKept(x: string, j: string, y: string, body: seq<Field>)
    requires IsIdentifier(j) && WellFormedBody(body)
    requires forall i :: 0 <= i < |body| ==> body[i].key != j
    ensures Substitute(x + Token(j) + y, body) == Substitute(x, body) + Token(j) + Substitute(y, body)
    decreases |body|
  {
    if body != [] {
      var init, f := body[..|body| - 1], body[|body| - 1];
      assert WellFormedBody(init);
      UnknownPlaceholderKept(x, j, y, init);
      ReplaceAround(Substitute(x, init), j, Substitute(y, init), f.key, f.value);
    }
  }

  /** Fields apply one after another to the running prompt, so a later key
      matches a placeholder that an earlier value completed: `${${a}}` with
      a = "b" becomes `${b}`, which the field b then replaces. */
  lemma LaterKeySeesEarlierValue(a: string, b: string, x: string)
    requires WellFormedBody([Field(a, b), Field(b, x)])
    ensures Substitute("${" + Token(a) + "}", [Field(a, b), Field(b, x)]) == x
  {
    var body := [Field(a, b), Field(b, x)];
    var template := "${" + Token(a) + "}";
    assert IsIdentifier(body[0].key) && IsIdentifier(body[1].key);
    assert body[..1] == [Field(a, b)];
    assert body[..1][..0] == [];
    assert Substitute(template, body[..1]) == ReplaceAll(template, Token(a), b);
    ReplaceAround("${", a, "}", a, b);
    StepShort("${", Token(a), b);
    StepShort("}", Token(a), b);
    assert "${" + b + "}" == Token(b);
    ReplaceAround("", b, "", b, x);
    StepShort("", Token(b), x);
    assert "" + Token(b) + "" == Token(b);
  }

  /** A template with one placeholder and `$`-free text around it, filled
      from a body holding just that key. */
  lemma {:induction false} SingleFieldFill(prefix: string, key: string, suffix: string, value: string)
    requires IsIdentifier(key) && '$' !in prefix && '$' !in suffix
    ensures Substitute(prefix + Token(key) + suffix, [Field(key, value)]) == prefix + value + suffix
  {
    assert [Field(key, value)][..0] == [];
    ReplaceAround(prefix, key, suffix, key, value);
    TokenIsPlaceholder(key);
    DollarFreePrefix(prefix, "", Token(key), value);
    DollarFreePrefix(suffix, "", Token(key), value);
    StepShort("", Token(key), value);
    assert prefix + "" == prefix && suffix + "" == suffix;
  }

  lemma TripPieces()
    ensures "Recommend a trip to ${area}." == "Recommend a trip to " + Token("area") + "."
    ensures "Recommend a trip to Kyoto." == "Recommend a trip to " + "Kyoto" + "."
  {
  }

  lemma TripTextHasNoDollar()
    ensures IsIdentifier("area") && '$' !in "Recommend a trip to " && '$' !in "."
  {
  }

  /** The trip example: `${area}` becomes the submitted area. */
  lemma TripExample()
    ensures Substitute("Recommend a trip to ${area}.", [Field("area", "Kyoto")]) == "Recommend a trip to Kyoto."
  {
    TripPieces();
    TripTextHasNoDollar();
    SingleFieldFill("Recommend a trip to ", "area", ".", "Kyoto");
  }
}
