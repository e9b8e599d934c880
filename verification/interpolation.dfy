/** The text interpolator's substitution passes, each a left-to-right scan that resumes
    after every replacement, as a global regular-expression `replace` does:
      1. `{name}` (name of word characters) becomes the variable's value when it is defined;
      2. `{inventory_count}` becomes the inventory length;
      3. `{if:name}body{/if}` (body free of `{`) becomes the body when the variable is
         truthy and disappears otherwise. */
module Interpolation {
  import opened Wrappers
  import opened Values

  /** Text with no `{`, which none of the three passes can match. */
  predicate Plain(t: string)
    decreases |t|
  {
    t == [] || (t[0] != '{' && Plain(t[1..]))
  }

  /** `Plain` is the absence of `{`. */
  lemma {:induction false} PlainIff(t: string)
    ensures Plain(t) <==> '{' !in t
    decreases |t|
  {
    if t != [] {
      PlainIff(t[1..]);
      assert t == [t[0]] + t[1..];
    }
  }

  /** `\w`: an ASCII letter, digit or underscore. */
  predicate IsWordChar(c: char) {
    'a' <= c <= 'z' || 'A' <= c <= 'Z' || '0' <= c <= '9' || c == '_'
  }

  predicate IsWord(s: string) {
    |s| > 0 && forall i :: 0 <= i < |s| ==> IsWordChar(s[i])
  }

  /** `n` is where `\w*` stops matching at the start of `t`. */
  predicate IsWordStop(t: string, n: int) {
    0 <= n <= |t| && (forall i :: 0 <= i < n ==> IsWordChar(t[i])) && (n == |t| || !IsWordChar(t[n]))
  }

  lemma {:induction false} WordStopExists(t: string)
    ensures exists n :: IsWordStop(t, n)
  {
    if t == [] || !IsWordChar(t[0]) {
      assert IsWordStop(t, 0);
    } else {
      WordStopExists(t[1..]);
      var n :| IsWordStop(t[1..], n);
      assert IsWordStop(t, n + 1) by {
        forall i | 0 <= i < n + 1
          ensures IsWordChar(t[i])
        {
          if i > 0 { assert t[i] == t[1..][i - 1]; }
        }
      }
    }
  }

  lemma WordStopUnique(t: string)
    ensures forall n, m :: IsWordStop(t, n) && IsWordStop(t, m) ==> n == m
  {
  }

  /** Length of the longest prefix made of word characters (`\w*` matching greedily). */
  function WordRun(t: string): (n: nat)
    ensures IsWordStop(t, n)
  {
    WordStopExists(t);
    WordStopUnique(t);
    var n :| 0 <= n <= |t| && IsWordStop(t, n);
    n
  }

  /** `n` is where `[^{]*` stops matching at the start of `t`. */
  predicate IsBraceStop(t: string, n: int) {
    0 <= n <= |t| && '{' !in t[..n] && (n == |t| || t[n] == '{')
  }

  lemma {:induction false} BraceStopExists(t: string)
    ensures exists n :: IsBraceStop(t, n)
  {
    if t == [] || t[0] == '{' {
      assert IsBraceStop(t, 0);
    } else {
      BraceStopExists(t[1..]);
      var n :| IsBraceStop(t[1..], n);
      assert t[..n + 1] == [t[0]] + t[1..][..n];
      assert IsBraceStop(t, n + 1);
    }
  }

  lemma BraceStopUnique(t: string)
    ensures forall n, m :: IsBraceStop(t, n) && IsBraceStop(t, m) ==> n == m
  {
    forall n, m | IsBraceStop(t, n) && IsBraceStop(t, m)
      ensures n == m
    {
    }
  }

  /** Length of the longest prefix free of `{` (`[^{]*` matching greedily). */
  function NonBraceRun(t: string): (n: nat)
    ensures IsBraceStop(t, n)
  {
    BraceStopExists(t);
    BraceStopUnique(t);
    var n :| 0 <= n <= |t| && IsBraceStop(t, n);
    n
  }

  lemma WordRunOf(name: string, rest: string)
    requires forall i :: 0 <= i < |name| ==> IsWordChar(name[i])
    requires rest == [] || !IsWordChar(rest[0])
    ensures WordRun(name + rest) == |name|
  {
    var t := name + rest;
    assert forall i :: 0 <= i < |name| ==> t[i] == name[i];
    assert |name| < |t| ==> t[|name|] == rest[0];
    assert IsWordStop(t, |name|);
    WordStopUnique(t);
  }

  lemma NonBraceRunOf(body: string, rest: string)
    requires '{' !in body
    requires rest == [] || rest[0] == '{'
    ensures NonBraceRun(body + rest) == |body|
  {
    var t := body + rest;
    assert t[..|body|] == body;
    assert |body| < |t| ==> t[|body|] == rest[0];
    assert IsBraceStop(t, |body|);
    BraceStopUnique(t);
  }

  // ---------------------------------------------------------------------------
  // Pass 1: variables

  /** The name of the `{name}` placeholder `t` starts with, if it starts with one. */
  function PlaceholderAt(t: string): (r: Option<string>)
    ensures r.Some? ==> |r.value| + 2 <= |t|
    ensures |t| == 0 || t[0] != '{' ==> r.None?
  {
    if |t| > 0 && t[0] == '{' then
      var n := WordRun(t[1..]);
      if n > 0 && n + 1 < |t| && t[n + 1] == '}' then Some(t[1..n + 1]) else None
    else None
  }

  /** A matched placeholder is a word name spelled out in braces at the start of the text. */
  lemma PlaceholderAtMatches(t: string)
    requires PlaceholderAt(t).Some?
    ensures var name := PlaceholderAt(t).value;
            IsWord(name) && t[..|name| + 2] == "{" + name + "}"
  {
    var n := WordRun(t[1..]);
    assert t[..n + 2] == "{" + t[1..n + 1] + "}";
  }

  lemma PlaceholderAtOf(name: string, rest: string)
    requires IsWord(name)
    ensures PlaceholderAt("{" + name + "}" + rest) == Some(name)
  {
    var t := "{" + name + "}" + rest;
    assert t[1..] == name + ("}" + rest);
    WordRunOf(name, "}" + rest);
    assert t[1..|name| + 1] == name;
  }

  /** Pass 1: `{name}` becomes `String(value)` for a defined variable and is kept otherwise. */
  function SubstituteVariables(t: string, vars: map<string, Value>): (r: string)
    ensures Plain(t) ==> r == t
    decreases |t|
  {
    if t == [] then []
    else if t[0] != '{' then
      assert t == [t[0]] + t[1..];
      [t[0]] + SubstituteVariables(t[1..], vars)
    else match PlaceholderAt(t)
      case Some(name) =>
        (if name in vars then ToText(Some(vars[name])) else t[..|name| + 2])
        + SubstituteVariables(t[|name| + 2..], vars)
      case None => [t[0]] + SubstituteVariables(t[1..], vars)
  }

  lemma {:induction false} SubstituteVariablesPrefix(p: string, t: string, vars: map<string, Value>)
    requires '{' !in p
    ensures SubstituteVariables(p + t, vars) == p + SubstituteVariables(t, vars)
  {
    if p == [] {
      assert p + t == t;
    } else {
      assert (p + t)[0] == p[0];
      assert (p + t)[1..] == p[1..] + t;
      SubstituteVariablesPrefix(p[1..], t, vars);
    }
  }

  /** With no variables defined, pass 1 leaves every text unchanged. */
  lemma {:induction false} SubstituteNoVariables(t: string)
    ensures SubstituteVariables(t, map[]) == t
    decreases |t|
  {
    if t != [] {
      match PlaceholderAt(t)
      case Some(name) =>
        PlaceholderAtMatches(t);
        SubstituteNoVariables(t[|name| + 2..]);
        SubstituteNoVariablesKeeps(t, name);
      case None =>
        SubstituteNoVariables(t[1..]);
        SubstituteNoVariablesSkips(t);
    }
  }

  /** The step of `SubstituteNoVariables` at an undefined placeholder. */
  lemma SubstituteNoVariablesKeeps(t: string, name: string)
    requires t != [] && PlaceholderAt(t) == Some(name) && |name| + 2 <= |t|
    requires SubstituteVariables(t[|name| + 2..], map[]) == t[|name| + 2..]
    ensures SubstituteVariables(t, map[]) == t
  {
    assert t == t[..|name| + 2] + t[|name| + 2..];
  }

  /** The step of `SubstituteNoVariables` at a character that starts no placeholder. */
  lemma SubstituteNoVariablesSkips(t: string)
    requires t != [] && PlaceholderAt(t).None?
    requires SubstituteVariables(t[1..], map[]) == t[1..]
    ensures SubstituteVariables(t, map[]) == t
  {
    assert t == [t[0]] + t[1..];
  }

  lemma SubstitutePlaceholder(name: string, rest: string, vars: map<string, Value>)
    requires IsWord(name)
    ensures SubstituteVariables("{" + name + "}" + rest, vars)
            == (if name in vars then ToText(Some(vars[name])) else "{" + name + "}")
               + SubstituteVariables(rest, vars)
  {
    var t := "{" + name + "}" + rest;
    PlaceholderAtOf(name, rest);
    assert t[|name| + 2..] == rest;
  }

  // ---------------------------------------------------------------------------
  // Pass 2: inventory count

  const CountToken: string := "{inventory_count}"

  /** Pass 2: every `{inventory_count}` becomes `count`. */
  function ReplaceCount(t: string, count: string): (r: string)
    ensures Plain(t) ==> r == t
    decreases |t|
  {
    if t == [] then []
    else if t[0] != '{' then
      assert t == [t[0]] + t[1..];
      [t[0]] + ReplaceCount(t[1..], count)
    else if IsPrefix(CountToken, t) then count + ReplaceCount(t[|CountToken|..], count)
    else [t[0]] + ReplaceCount(t[1..], count)
  }

  lemma {:induction false} ReplaceCountPrefix(p: string, t: string, count: string)
    requires '{' !in p
    ensures ReplaceCount(p + t, count) == p + ReplaceCount(t, count)
  {
    if p == [] {
      assert p + t == t;
    } else {
      assert (p + t)[0] == p[0];
      assert (p + t)[1..] == p[1..] + t;
      ReplaceCountPrefix(p[1..], t, count);
    }
  }

  lemma ReplaceCountToken(rest: string, count: string)
    ensures ReplaceCount(CountToken + rest, count) == count + ReplaceCount(rest, count)
  {
    assert (CountToken + rest)[|CountToken|..] == rest;
  }

  /** `inventory_count` is a word, so `{inventory_count}` is also a pass-1 placeholder. */
  lemma CountNameIsWord()
    ensures IsWord("inventory_count")
  {
    var w := "inventory_count";
    forall i | 0 <= i < |w|
      ensures IsWordChar(w[i])
    {
    }
  }

  /** Text starting with `{inventory_count}` starts with a word run of 15 characters. */
  lemma CountTokenShape(t: string)
    requires IsPrefix(CountToken, t)
    ensures WordRun(t[1..]) == 15
  {
    CountNameIsWord();
    assert t[1..] == "inventory_count" + t[16..];
    assert t[16] == '}';
    WordRunOf("inventory_count", t[16..]);
  }

  /** The only placeholder that spells `{inventory_count}` is the one named `inventory_count`. */
  lemma PlaceholderIsCount(name: string, rest: string)
    requires IsWord(name) && IsPrefix(CountToken, "{" + name + "}" + rest)
    ensures name == "inventory_count"
  {
    var t := "{" + name + "}" + rest;
    CountTokenShape(t);
    assert t[1..] == name + ("}" + rest);
    WordRunOf(name, "}" + rest);
    assert t[1..16] == name;
    assert t[1..16] == CountToken[1..16];
  }

  /** A placeholder other than `{inventory_count}` passes through pass 2 untouched. */
  lemma ReplaceCountSkipsPlaceholder(name: string, rest: string, count: string)
    requires IsWord(name) && name != "inventory_count"
    ensures ReplaceCount("{" + name + "}" + rest, count) == "{" + name + "}" + ReplaceCount(rest, count)
  {
    var t := "{" + name + "}" + rest;
    assert t[1..] == name + ("}" + rest);
    WordRunOf(name, "}" + rest);
    if IsPrefix(CountToken, t) {
      PlaceholderIsCount(name, rest);
    }
    assert t[1..] == (name + "}") + rest;
    ReplaceCountPrefix(name + "}", rest, count);
  }

  // ---------------------------------------------------------------------------
  // Pass 3: conditional blocks

  /** A matched `{if:name}body{/if}` block and its length in the text. */
  datatype IfBlock = IfBlock(name: string, body: string, length: nat)

  function IfBlockText(name: string, body: string): string {
    "{if:" + name + "}" + body + "{/if}"
  }

  /** `t` starts with `{if:`. */
  predicate OpensBlock(t: string) {
    |t| >= 4 && t[0] == '{' && t[1] == 'i' && t[2] == 'f' && t[3] == ':'
  }

  /** `t` starts with `{/if}`. */
  predicate ClosesBlock(t: string) {
    |t| >= 5 && t[0] == '{' && t[1] == '/' && t[2] == 'i' && t[3] == 'f' && t[4] == '}'
  }

  /** The conditional block `t` starts with, if it starts with one. */
  function IfBlockAt(t: string): (r: Option<IfBlock>)
    ensures r.Some? ==> 0 < r.value.length <= |t|
  {
    if OpensBlock(t) then
      var n := WordRun(t[4..]);
      if n > 0 && 4 + n < |t| && t[4 + n] == '}' then
        var start := 5 + n;
        var m := NonBraceRun(t[start..]);
        if ClosesBlock(t[start + m..]) then
          Some(IfBlock(t[4..4 + n], t[start..start + m], start + m + 5))
        else None
      else None
    else None
  }

  /** A matched block is a word name and a `{`-free body, spelled out at the start of the text. */
  lemma IfBlockAtMatches(t: string)
    requires IfBlockAt(t).Some?
    ensures var b := IfBlockAt(t).value;
            IsWord(b.name) && '{' !in b.body && t[..b.length] == IfBlockText(b.name, b.body)
  {
    var n := WordRun(t[4..]);
    var start := 5 + n;
    var m := NonBraceRun(t[start..]);
    assert t[start..][..m] == t[start..start + m];
    var len := start + m + 5;
    assert t[..len] == t[..4] + t[4..4 + n] + "}" + t[start..start + m] + t[start + m..len];
  }

  lemma IfBlockAtOf(name: string, body: string, rest: string)
    requires IsWord(name) && '{' !in body
    ensures IfBlockAt(IfBlockText(name, body) + rest) == Some(IfBlock(name, body, |IfBlockText(name, body)|))
  {
    var t := IfBlockText(name, body) + rest;
    assert t[0] == '{' && t[1] == 'i' && t[2] == 'f' && t[3] == ':';
    assert t[4..] == name + ("}" + body + "{/if}" + rest);
    WordRunOf(name, "}" + body + "{/if}" + rest);
    var start := 5 + |name|;
    assert t[4 + |name|] == '}';
    assert t[4..4 + |name|] == name;
    assert t[start..] == body + ("{/if}" + rest);
    NonBraceRunOf(body, "{/if}" + rest);
    assert t[start..start + |body|] == body;
    var close := t[start + |body|..];
    assert close == "{/if}" + rest;
    assert close[0] == '{' && close[1] == '/' && close[2] == 'i' && close[3] == 'f' && close[4] == '}';
  }

  /** Pass 3: each block becomes its body when the variable is truthy, nothing otherwise. */
  function ResolveConditionals(t: string, vars: map<string, Value>): (r: string)
    ensures Plain(t) ==> r == t
    decreases |t|
  {
    if t == [] then []
    else if t[0] != '{' then
      assert t == [t[0]] + t[1..];
      [t[0]] + ResolveConditionals(t[1..], vars)
    else match IfBlockAt(t)
      case Some(b) =>
        (if Truthy(Lookup(vars, b.name)) then b.body else "") + ResolveConditionals(t[b.length..], vars)
      case None => [t[0]] + ResolveConditionals(t[1..], vars)
  }

  lemma ResolveConditionalsHead(t: string, vars: map<string, Value>)
    requires t != [] && t[0] != '{'
    ensures ResolveConditionals(t, vars) == [t[0]] + ResolveConditionals(t[1..], vars)
  {
  }

  lemma {:induction false} ResolveConditionalsPrefix(p: string, t: string, vars: map<string, Value>)
    requires '{' !in p
    ensures ResolveConditionals(p + t, vars) == p + ResolveConditionals(t, vars)
  {
    if p == [] {
      assert p + t == t;
    } else {
      var pt := p + t;
      assert pt[0] == p[0] && pt[1..] == p[1..] + t;
      ResolveConditionalsHead(pt, vars);
      ResolveConditionalsPrefix(p[1..], t, vars);
      assert [p[0]] + (p[1..] + ResolveConditionals(t, vars)) == p + ResolveConditionals(t, vars);
    }
  }

  lemma ResolveConditionalsBlock(name: string, body: string, rest: string, vars: map<string, Value>)
    requires IsWord(name) && '{' !in body
    ensures ResolveConditionals(IfBlockText(name, body) + rest, vars)
            == (if Truthy(Lookup(vars, name)) then body else "") + ResolveConditionals(rest, vars)
  {
    var t := IfBlockText(name, body) + rest;
    IfBlockAtOf(name, body, rest);
    assert t[|IfBlockText(name, body)|..] == rest;
  }

  /** A `{name}` placeholder is not a conditional block and passes through pass 3. */
  lemma ResolveConditionalsSkipsPlaceholder(name: string, rest: string, vars: map<string, Value>)
    requires IsWord(name)
    ensures ResolveConditionals("{" + name + "}" + rest, vars) == "{" + name + "}" + ResolveConditionals(rest, vars)
  {
    var t := "{" + name + "}" + rest;
    assert !OpensBlock(t) by {
      if |name| >= 3 {
        assert t[3] == name[2];
      } else {
        assert t[|name| + 1] == '}';
      }
    }
    ResolveConditionalsNoBlock(t, vars);
    assert t[1..] == (name + "}") + rest;
    ResolveConditionalsPrefix(name + "}", rest, vars);
  }

  /** Where no block opens, pass 3 copies one character and moves on. */
  lemma ResolveConditionalsNoBlock(t: string, vars: map<string, Value>)
    requires t != [] && !OpensBlock(t)
    ensures ResolveConditionals(t, vars) == [t[0]] + ResolveConditionals(t[1..], vars)
  {
    assert IfBlockAt(t).None?;
  }

  /** Where no placeholder starts, pass 1 copies one character and moves on. */
  lemma SubstituteStep(t: string, vars: map<string, Value>)
    requires t != [] && PlaceholderAt(t).None?
    ensures SubstituteVariables(t, vars) == [t[0]] + SubstituteVariables(t[1..], vars)
  {
  }

  /** `{if:` and `{/` do not start a placeholder. */
  lemma NoPlaceholderAtBlock(t: string)
    requires OpensBlock(t) || (|t| >= 2 && t[0] == '{' && t[1] == '/')
    ensures PlaceholderAt(t).None?
  {
    if OpensBlock(t) {
      assert t[1..] == "if" + t[3..];
      WordRunOf("if", t[3..]);
    } else {
      WordRunOf([], t[1..]);
    }
  }

  /** A non-empty text is its first character followed by the rest, whatever follows it. */
  lemma HeadThenTail(p: string, s: string)
    requires p != []
    ensures [p[0]] + (p[1..] + s) == p + s
  {
    assert p == [p[0]] + p[1..];
  }

  /** A `{` that starts no placeholder, followed by text free of `{`, passes through pass 1. */
  lemma SubstituteSkipsOpening(p: string, rest: string, vars: map<string, Value>)
    requires |p| > 0 && p[0] == '{' && '{' !in p[1..] && PlaceholderAt(p + rest).None?
    ensures SubstituteVariables(p + rest, vars) == p + SubstituteVariables(rest, vars)
  {
    var t := p + rest;
    assert t[0] == '{';
    SubstituteStep(t, vars);
    assert t[1..] == p[1..] + rest;
    SubstituteVariablesPrefix(p[1..], rest, vars);
    HeadThenTail(p, SubstituteVariables(rest, vars));
  }

  /** A `{` that starts no `{inventory_count}`, followed by text free of `{`, passes through pass 2. */
  lemma ReplaceCountSkipsOpening(p: string, rest: string, count: string)
    requires |p| > 0 && p[0] == '{' && '{' !in p[1..] && !IsPrefix(CountToken, p + rest)
    ensures ReplaceCount(p + rest, count) == p + ReplaceCount(rest, count)
  {
    var t := p + rest;
    assert t[0] == '{';
    assert t[1..] == p[1..] + rest;
    ReplaceCountPrefix(p[1..], rest, count);
    assert p == [p[0]] + p[1..];
  }

  /** The opening `{if:name}body` of a block, and the text after its opening brace. */
  lemma BlockOpeningShape(name: string, body: string, rest: string)
    requires IsWord(name) && '{' !in body
    ensures var opening := "{if:" + name + "}" + body;
            && IfBlockText(name, body) + rest == opening + ("{/if}" + rest)
            && '{' !in opening[1..]
            && OpensBlock(opening + ("{/if}" + rest))
            && opening[0] == '{'
  {
    var opening := "{if:" + name + "}" + body;
    assert opening[1..] == "if:" + name + "}" + body;
    assert forall i :: 0 <= i < |name| ==> name[i] != '{';
  }

  /** A conditional block passes through pass 1 untouched. */
  lemma SubstituteSkipsBlock(name: string, body: string, rest: string, vars: map<string, Value>)
    requires IsWord(name) && '{' !in body
    ensures SubstituteVariables(IfBlockText(name, body) + rest, vars)
            == IfBlockText(name, body) + SubstituteVariables(rest, vars)
  {
    var opening := "{if:" + name + "}" + body;
    var closing := "{/if}";
    BlockOpeningShape(name, body, rest);
    NoPlaceholderAtBlock(opening + (closing + rest));
    SubstituteSkipsOpening(opening, closing + rest, vars);
    assert (closing + rest)[1] == '/';
    NoPlaceholderAtBlock(closing + rest);
    assert closing[1..] == "/if}";
    SubstituteSkipsOpening(closing, rest, vars);
  }

  /** A conditional block passes through pass 2 untouched. */
  lemma ReplaceCountSkipsBlock(name: string, body: string, rest: string, count: string)
    requires IsWord(name) && '{' !in body
    ensures ReplaceCount(IfBlockText(name, body) + rest, count)
            == IfBlockText(name, body) + ReplaceCount(rest, count)
  {
    var opening := "{if:" + name + "}" + body;
    var closing := "{/if}";
    BlockOpeningShape(name, body, rest);
    assert !IsPrefix(CountToken, opening + (closing + rest)) by {
      assert (opening + (closing + rest))[2] == 'f' != CountToken[2];
    }
    ReplaceCountSkipsOpening(opening, closing + rest, count);
    assert !IsPrefix(CountToken, closing + rest) by {
      assert (closing + rest)[1] == '/' != CountToken[1];
    }
    assert closing[1..] == "/if}";
    ReplaceCountSkipsOpening(closing, rest, count);
  }

  // ---------------------------------------------------------------------------
  // Reference: a template read as a list of pieces, rendered in a single pass

  /** A piece of template text. A `Literal` holds no `{`. */
  datatype Piece =
    | Literal(text: string)
    | Placeholder(name: string)
    | InventoryCount
    | Conditional(name: string, body: string)

  /** The source text a piece is written as. */
  function PieceText(p: Piece): string {
    match p
    case Literal(text) => text
    case Placeholder(name) => "{" + name + "}"
    case InventoryCount => CountToken
    case Conditional(name, body) => IfBlockText(name, body)
  }

  function TemplateText(ps: seq<Piece>): string {
    if ps == [] then [] else PieceText(ps[0]) + TemplateText(ps[1..])
  }

  /** What a piece means: the single-pass reading of the template. */
  function RenderPiece(p: Piece, vars: map<string, Value>, count: string): string {
    match p
    case Literal(text) => text
    case Placeholder(name) => if name in vars then ToText(Some(vars[name])) else "{" + name + "}"
    case InventoryCount => count
    case Conditional(name, body) => if Truthy(Lookup(vars, name)) then body else ""
  }

  function Render(ps: seq<Piece>, vars: map<string, Value>, count: string): string {
    if ps == [] then [] else RenderPiece(ps[0], vars, count) + Render(ps[1..], vars, count)
  }

  /** The pieces the three passes can tell apart: literals and block bodies without `{`,
      word names, substituted values without `{`, and `{inventory_count}` not shadowed
      by a variable of that name. */
  predicate WellFormedPiece(p: Piece, vars: map<string, Value>) {
    match p
    case Literal(text) => '{' !in text
    case Placeholder(name) =>
      IsWord(name) && name != "inventory_count" && (name in vars ==> '{' !in ToText(Some(vars[name])))
    case InventoryCount => "inventory_count" !in vars
    case Conditional(name, body) => IsWord(name) && '{' !in body
  }

  /** Text after pass 1 and after pass 2, piece by piece. */
  function AfterVariables(p: Piece, vars: map<string, Value>): string {
    match p
    case Placeholder(name) => RenderPiece(p, vars, "")
    case _ => PieceText(p)
  }

  function AfterCount(p: Piece, vars: map<string, Value>, count: string): string {
    match p
    case Placeholder(_) => RenderPiece(p, vars, count)
    case InventoryCount => count
    case _ => PieceText(p)
  }

  lemma PieceThroughPasses(p: Piece, rest1: string, rest2: string, rest3: string, vars: map<string, Value>, count: string)
    requires WellFormedPiece(p, vars)
    requires forall i :: 0 <= i < |count| ==> count[i] != '{'
    ensures SubstituteVariables(PieceText(p) + rest1, vars) == AfterVariables(p, vars) + SubstituteVariables(rest1, vars)
    ensures ReplaceCount(AfterVariables(p, vars) + rest2, count) == AfterCount(p, vars, count) + ReplaceCount(rest2, count)
    ensures ResolveConditionals(AfterCount(p, vars, count) + rest3, vars) == RenderPiece(p, vars, count) + ResolveConditionals(rest3, vars)
  {
    match p
    case Literal(text) =>
      SubstituteVariablesPrefix(text, rest1, vars);
      ReplaceCountPrefix(text, rest2, count);
      ResolveConditionalsPrefix(text, rest3, vars);
    case Placeholder(name) =>
      SubstitutePlaceholder(name, rest1, vars);
      if name in vars {
        ReplaceCountPrefix(ToText(Some(vars[name])), rest2, count);
        ResolveConditionalsPrefix(ToText(Some(vars[name])), rest3, vars);
      } else {
        ReplaceCountSkipsPlaceholder(name, rest2, count);
        ResolveConditionalsSkipsPlaceholder(name, rest3, vars);
      }
    case InventoryCount =>
      CountNameIsWord();
      assert CountToken == "{" + "inventory_count" + "}";
      SubstitutePlaceholder("inventory_count", rest1, vars);
      ReplaceCountToken(rest2, count);
      ResolveConditionalsPrefix(count, rest3, vars);
    case Conditional(name, body) =>
      SubstituteSkipsBlock(name, body, rest1, vars);
      ReplaceCountSkipsBlock(name, body, rest2, count);
      ResolveConditionalsBlock(name, body, rest3, vars);
  }

  function AfterVariablesText(ps: seq<Piece>, vars: map<string, Value>): string {
    if ps == [] then [] else AfterVariables(ps[0], vars) + AfterVariablesText(ps[1..], vars)
  }

  function AfterCountText(ps: seq<Piece>, vars: map<string, Value>, count: string): string {
    if ps == [] then [] else AfterCount(ps[0], vars, count) + AfterCountText(ps[1..], vars, count)
  }

  /** A template of one piece is that piece's text, and renders as that piece. */
  lemma SinglePiece(p: Piece, vars: map<string, Value>, count: string)
    ensures TemplateText([p]) == PieceText(p)
    ensures Render([p], vars, count) == RenderPiece(p, vars, count)
  {
    assert [p][1..] == [];
  }

  /** The three passes render a template exactly as the single-pass reading of its pieces. */
  lemma {:induction false} PassesRenderTemplate(ps: seq<Piece>, vars: map<string, Value>, count: string)
    requires forall i :: 0 <= i < |ps| ==> WellFormedPiece(ps[i], vars)
    requires forall i :: 0 <= i < |count| ==> count[i] != '{'
    ensures SubstituteVariables(TemplateText(ps), vars) == AfterVariablesText(ps, vars)
    ensures ReplaceCount(AfterVariablesText(ps, vars), count) == AfterCountText(ps, vars, count)
    ensures ResolveConditionals(AfterCountText(ps, vars, count), vars) == Render(ps, vars, count)
  {
    if ps != [] {
      PassesRenderTemplate(ps[1..], vars, count);
      PieceThroughPasses(ps[0], TemplateText(ps[1..]), AfterVariablesText(ps[1..], vars),
                         AfterCountText(ps[1..], vars, count), vars, count);
    }
  }
}
