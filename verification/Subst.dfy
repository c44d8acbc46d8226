/**
Build-time variable substitution: `${NAME}` and `$NAME` references in a string are
replaced by the values of the names in scope, everything else stays as it is.

The substitution loop is proved equal to a reading of the string as tokens, and
the tokens are pinned down by being the inverse of printing them.
*/
module Subst {
  predicate IsNameStart(c: char) {
    c == '_' || 'a' <= c <= 'z' || 'A' <= c <= 'Z'
  }

  predicate IsNameContinue(c: char) {
    IsNameStart(c) || '0' <= c <= '9'
  }

  predicate IsValidName(name: string) {
    name != "" && IsNameStart(name[0]) && forall i :: 0 < i < |name| ==> IsNameContinue(name[i])
  }

  type Scope = map<string, string>

  // -------------------------------------------------------------------- tokens

  /** A literal character, `$NAME`, `${...}`, or a `${` that is never closed. */
  datatype Token = Text(c: char) | Bare(name: string) | Braced(name: string) | Unclosed(name: string)

  /** How many characters of `s` continue a name. */
  function NameLength(s: string): (n: nat)
    ensures n <= |s|
    ensures forall i :: 0 <= i < n ==> IsNameContinue(s[i])
    ensures n < |s| ==> !IsNameContinue(s[n])
  {
    if s == "" || !IsNameContinue(s[0]) then 0 else 1 + NameLength(s[1..])
  }

  /** Where the first closing brace of `s` is, `|s|` if there is none. */
  function BraceAt(s: string): (n: nat)
    ensures n <= |s|
    ensures forall i :: 0 <= i < n ==> s[i] != '}'
    ensures n < |s| ==> s[n] == '}'
  {
    if s == "" || s[0] == '}' then 0 else 1 + BraceAt(s[1..])
  }

  /** The token at the front of `s`, and how many characters it takes. */
  function FirstToken(s: string): (r: (Token, nat))
    requires s != ""
    ensures 0 < r.1 <= |s|
  {
    if s[0] != '$' || |s| == 1 then (Text(s[0]), 1)
    else if s[1] == '{' then
      var k := BraceAt(s[2..]);
      if 2 + k < |s| then (Braced(s[2..2 + k]), 3 + k) else (Unclosed(s[2..]), |s|)
    else if IsNameStart(s[1]) then
      var k := NameLength(s[1..]);
      (Bare(s[1..1 + k]), 1 + k)
    else (Text('$'), 1)
  }

  function Tokenise(s: string): seq<Token>
    decreases |s|
  {
    if s == "" then [] else [FirstToken(s).0] + Tokenise(s[FirstToken(s).1..])
  }

  function Print(t: Token): string {
    match t
    case Text(c) => [c]
    case Bare(name) => "$" + name
    case Braced(name) => "${" + name + "}"
    case Unclosed(name) => "${" + name
  }

  /** A token with its reference replaced when the name is known and well formed. */
  function Expand(t: Token, scope: Scope): string {
    if Expandable(t) && t.name in scope then scope[t.name] else Print(t)
  }

  predicate Expandable(t: Token) {
    t.Bare? || (t.Braced? && IsValidName(t.name))
  }

  function Render(ts: seq<Token>, scope: Scope): string {
    if ts == [] then "" else Expand(ts[0], scope) + Render(ts[1..], scope)
  }

  function PrintAll(ts: seq<Token>): string {
    if ts == [] then "" else Print(ts[0]) + PrintAll(ts[1..])
  }

  // --------------------------------------------------- printing and tokenising

  lemma PrintFirst(s: string)
    requires s != ""
    ensures Print(FirstToken(s).0) == s[..FirstToken(s).1]
  {
    if |s| > 1 && s[0] == '$' && s[1] == '{' {
      var k := BraceAt(s[2..]);
      assert s[2..][..k] == s[2..2 + k];
    }
  }

  lemma PrintCons(t: Token, tail: seq<Token>, s: string, n: nat)
    requires n <= |s| && Print(t) == s[..n] && PrintAll(tail) == s[n..]
    ensures PrintAll([t] + tail) == s
  {
    assert ([t] + tail)[1..] == tail;
    assert s == s[..n] + s[n..];
  }

  /** Printing the tokens of a string gives the string back. */
  lemma {:induction false} PrintInvertsTokenise(s: string)
    ensures PrintAll(Tokenise(s)) == s
    decreases |s|
  {
    if s != "" {
      var (t, n) := FirstToken(s);
      PrintFirst(s);
      PrintInvertsTokenise(s[n..]);
      PrintCons(t, Tokenise(s[n..]), s, n);
    }
  }

  /** `t` is what the scanner reads when `rest` follows it. */
  predicate Fits(t: Token, rest: string) {
    match t
    case Text(c) => c == '$' ==> rest == "" || (rest[0] != '{' && !IsNameStart(rest[0]))
    case Bare(name) => IsValidName(name) && (rest == "" || !IsNameContinue(rest[0]))
    case Braced(name) => '}' !in name
    case Unclosed(name) => '}' !in name && rest == ""
  }

  /** Each token is what the scanner reads at its place. */
  predicate Canonical(ts: seq<Token>) {
    ts == [] || (Fits(ts[0], PrintAll(ts[1..])) && Canonical(ts[1..]))
  }

  lemma {:induction false} NameLengthIs(name: string, rest: string)
    requires (forall i :: 0 <= i < |name| ==> IsNameContinue(name[i])) && (rest == "" || !IsNameContinue(rest[0]))
    ensures NameLength(name + rest) == |name|
  {
    if name == "" {
      assert name + rest == rest;
    } else {
      assert (name + rest)[1..] == name[1..] + rest;
      NameLengthIs(name[1..], rest);
    }
  }

  lemma {:induction false} BraceAtIs(name: string, rest: string)
    requires '}' !in name && (rest == "" || rest[0] == '}')
    ensures BraceAt(name + rest) == |name|
  {
    if name == "" {
      assert name + rest == rest;
    } else {
      assert (name + rest)[1..] == name[1..] + rest;
      BraceAtIs(name[1..], rest);
    }
  }

  lemma FirstBare(name: string, rest: string)
    requires Fits(Bare(name), rest)
    ensures FirstToken(Print(Bare(name)) + rest) == (Bare(name), 1 + |name|)
  {
    var s := Print(Bare(name)) + rest;
    assert s[1..] == name + rest && s[1] == name[0];
    NameLengthIs(name, rest);
    assert s[1..1 + |name|] == name;
  }

  lemma FirstBraced(name: string, rest: string)
    requires '}' !in name
    ensures FirstToken(Print(Braced(name)) + rest) == (Braced(name), 3 + |name|)
  {
    var s := Print(Braced(name)) + rest;
    assert s[2..] == name + ("}" + rest);
    BraceAtIs(name, "}" + rest);
    assert s[2..2 + |name|] == name;
  }

  lemma FirstUnclosed(name: string)
    requires '}' !in name
    ensures FirstToken(Print(Unclosed(name))) == (Unclosed(name), 2 + |name|)
  {
    var s := Print(Unclosed(name));
    assert s[2..] == name + "" == name;
    BraceAtIs(name, "");
  }

  lemma FirstOfPrinted(t: Token, rest: string)
    requires Fits(t, rest)
    ensures FirstToken(Print(t) + rest) == (t, |Print(t)|)
  {
    match t
    case Text(c) =>
      assert rest != "" ==> (Print(t) + rest)[1] == rest[0];
    case Bare(name) => FirstBare(name, rest);
    case Braced(name) => FirstBraced(name, rest);
    case Unclosed(name) =>
      assert Print(t) + rest == Print(t);
      FirstUnclosed(name);
  }

  /** Tokenising what was printed gives the tokens back, for every canonical sequence. */
  lemma {:induction false} TokeniseInvertsPrint(ts: seq<Token>)
    requires Canonical(ts)
    ensures Tokenise(PrintAll(ts)) == ts
  {
    if ts != [] {
      var rest := PrintAll(ts[1..]);
      FirstOfPrinted(ts[0], rest);
      TokeniseInvertsPrint(ts[1..]);
      assert (Print(ts[0]) + rest)[|Print(ts[0])|..] == rest;
    }
  }

  /** The scanner only produces canonical sequences. */
  lemma {:induction false} TokeniseIsCanonical(s: string)
    ensures Canonical(Tokenise(s))
    decreases |s|
  {
    if s != "" {
      var (t, n) := FirstToken(s);
      TokeniseIsCanonical(s[n..]);
      PrintInvertsTokenise(s[n..]);
      assert Tokenise(s)[1..] == Tokenise(s[n..]);
      if t.Bare? { assert forall i :: 0 <= i < |t.name| ==> t.name[i] == s[1..][i]; }
      assert Fits(t, s[n..]);
    }
  }

  // ------------------------------------------------------------ the substitution

  /** The rest of the result, from position `i` of the input. */
  function RenderFrom(input: string, i: nat, scope: Scope): string
    requires i <= |input|
  {
    Render(Tokenise(input[i..]), scope)
  }

  /** One step of the rendering: `piece` is what the token at `i` becomes, `next` where it ends. */
  ghost predicate IsStep(input: string, i: nat, scope: Scope, piece: string, next: nat) {
    && i < next <= |input|
    && piece == Expand(FirstToken(input[i..]).0, scope)
    && next == i + FirstToken(input[i..]).1
  }

  lemma RenderStep(input: string, i: nat, scope: Scope, piece: string, next: nat)
    requires IsStep(input, i, scope, piece, next)
    ensures RenderFrom(input, i, scope) == piece + RenderFrom(input, next, scope)
  {
    var (t, n) := FirstToken(input[i..]);
    assert input[i..][n..] == input[next..];
    assert ([t] + Tokenise(input[next..]))[1..] == Tokenise(input[next..]);
  }

  /** Read a braced name from `i`: the name, and where reading stopped. */
  method ReadBraced(input: string, i: nat) returns (name: string, closed: bool, next: nat)
    requires i <= |input|
    ensures var k := BraceAt(input[i..]);
      && name == input[i..i + k] && closed == (i + k < |input|)
      && next == i + k + if closed then 1 else 0
  {
    name, closed, next := "", false, i;
    while next < |input| && !closed
      invariant i <= next <= |input| && |name| == next - i - (if closed then 1 else 0)
      invariant i + |name| <= |input| && name == input[i..i + |name|] && '}' !in name
      invariant closed ==> i + |name| < |input| && input[i + |name|] == '}'
      decreases |input| - next
    {
      var c := input[next];
      next := next + 1;
      if c == '}' { closed := true; } else { name := name + [c]; }
    }
    ghost var rest := input[i + |name|..];
    assert input[i..] == name + rest;
    BraceAtIs(name, rest);
  }

  /** Read a bare name from `i`. */
  method ReadBare(input: string, i: nat) returns (name: string)
    requires i <= |input|
    ensures name == input[i..i + NameLength(input[i..])]
  {
    name := "";
    while i + |name| < |input| && IsNameContinue(input[i + |name|])
      invariant i + |name| <= |input| && name == input[i..i + |name|]
      invariant forall k :: 0 <= k < |name| ==> IsNameContinue(name[k])
      decreases |input| - |name|
    {
      name := name + [input[i + |name|]];
    }
    ghost var rest := input[i + |name|..];
    assert input[i..] == name + rest;
    NameLengthIs(name, rest);
  }

  /** A `$` at `i` that starts a reference, well formed or not. */
  predicate StartsReference(s: string, i: nat) {
    i + 1 < |s| && s[i] == '$' && (s[i + 1] == '{' || IsNameStart(s[i + 1]))
  }

  lemma TextStep(input: string, i: nat, scope: Scope)
    requires i < |input| && !StartsReference(input, i)
    ensures IsStep(input, i, scope, [input[i]], i + 1)
  {
  }

  lemma BracedStep(input: string, i: nat, scope: Scope, k: nat)
    requires i + 1 < |input| && input[i] == '$' && input[i + 1] == '{' && k == BraceAt(input[i + 2..])
    ensures var name := input[i + 2..i + 2 + k];
      if i + 2 + k < |input| then IsStep(input, i, scope, Expand(Braced(name), scope), i + 3 + k)
      else IsStep(input, i, scope, "${" + name, i + 2 + k)
  {
    var s := input[i..];
    assert s[2..] == input[i + 2..];
    assert s[2..2 + k] == input[i + 2..i + 2 + k];
    assert i + 2 + k == |input| ==> s[2..] == s[2..2 + k];
  }

  lemma BareStep(input: string, i: nat, scope: Scope, k: nat)
    requires i + 1 < |input| && input[i] == '$' && IsNameStart(input[i + 1]) && k == NameLength(input[i + 1..])
    ensures IsStep(input, i, scope, Expand(Bare(input[i + 1..i + 1 + k]), scope), i + 1 + k)
  {
    var s := input[i..];
    assert s[1..] == input[i + 1..];
    assert s[1..1 + k] == input[i + 1..i + 1 + k];
  }

  /** A `${` at `i`. */
  method ExpandBraced(input: string, i: nat, scope: Scope) returns (piece: string, next: nat)
    requires i + 1 < |input| && input[i] == '$' && input[i + 1] == '{'
    ensures IsStep(input, i, scope, piece, next)
  {
    var name, closed, end := ReadBraced(input, i + 2);
    BracedStep(input, i, scope, |name|);
    if !closed { return "${" + name, end; }
    if name in scope && IsValidName(name) { return scope[name], end; }
    return "${" + name + "}", end;
  }

  /** A `$` at `i` with a name behind it. */
  method ExpandBare(input: string, i: nat, scope: Scope) returns (piece: string, next: nat)
    requires i + 1 < |input| && input[i] == '$' && IsNameStart(input[i + 1])
    ensures IsStep(input, i, scope, piece, next)
  {
    var name := ReadBare(input, i + 1);
    BareStep(input, i, scope, |name|);
    return if name in scope then scope[name] else "$" + name, i + 1 + |name|;
  }

  /** One round of the substitution loop. */
  method SubstituteOne(input: string, i: nat, scope: Scope) returns (piece: string, next: nat)
    requires i < |input|
    ensures IsStep(input, i, scope, piece, next)
  {
    if input[i] == '$' && i + 1 < |input| && input[i + 1] == '{' {
      piece, next := ExpandBraced(input, i, scope);
    } else if input[i] == '$' && i + 1 < |input| && IsNameStart(input[i + 1]) {
      piece, next := ExpandBare(input, i, scope);
    } else {
      TextStep(input, i, scope);
      piece, next := [input[i]], i + 1;
    }
  }

  /** The substitution: tokenise, replace the known well-formed names, print. */
  method Substitute(input: string, scope: Scope) returns (out: string)
    ensures out == Render(Tokenise(input), scope)
  {
    if '$' !in input {
      NoDollarIsText(input, scope);
      return input;
    }
    out := "";
    var i := 0;
    ghost var whole := RenderFrom(input, 0, scope);
    while i < |input|
      invariant i <= |input| && whole == out + RenderFrom(input, i, scope)
      decreases |input| - i
    {
      var piece, next := SubstituteOne(input, i, scope);
      RenderStep(input, i, scope, piece, next);
      out, i := out + piece, next;
    }
    assert input[i..] == "" && input[0..] == input;
  }

  // ----------------------------------------------------- what becomes of each form

  /** A name, by its characters. */
  predicate Spelled(name: string) {
    && name != ""
    && (name[0] == '_' || 'a' <= name[0] <= 'z' || 'A' <= name[0] <= 'Z')
    && forall i :: 0 < i < |name| ==>
         name[i] == '_' || 'a' <= name[i] <= 'z' || 'A' <= name[i] <= 'Z' || '0' <= name[i] <= '9'
  }

  lemma FirstRenders(t: Token, rest: string, scope: Scope)
    requires Fits(t, rest)
    ensures Render(Tokenise(Print(t) + rest), scope) == Expand(t, scope) + Render(Tokenise(rest), scope)
  {
    var s := Print(t) + rest;
    FirstOfPrinted(t, rest);
    assert s[|Print(t)|..] == rest;
    assert ([t] + Tokenise(rest))[1..] == Tokenise(rest);
  }

  /** `$NAME` becomes the value of the name, or stays when there is none; what follows is done on its own. */
  lemma BareIsReplaced(name: string, rest: string, scope: Scope)
    requires Spelled(name)
    requires rest == "" ||
      !(rest[0] == '_' || 'a' <= rest[0] <= 'z' || 'A' <= rest[0] <= 'Z' || '0' <= rest[0] <= '9')
    ensures Render(Tokenise("$" + name + rest), scope) ==
            (if name in scope then scope[name] else "$" + name) + Render(Tokenise(rest), scope)
  {
    FirstRenders(Bare(name), rest, scope);
  }

  /** `${NAME}` likewise, whatever follows; what is no name between the braces stays as it is. */
  lemma BracedIsReplaced(name: string, rest: string, scope: Scope)
    requires '}' !in name
    ensures Render(Tokenise("${" + name + "}" + rest), scope) ==
            (if Spelled(name) && name in scope then scope[name] else "${" + name + "}") + Render(Tokenise(rest), scope)
  {
    FirstRenders(Braced(name), rest, scope);
  }

  /** Any other character stays, and so does a dollar that starts no reference. */
  lemma TextIsKept(c: char, rest: string, scope: Scope)
    requires c != '$' || rest == "" ||
      !(rest[0] == '{' || rest[0] == '_' || 'a' <= rest[0] <= 'z' || 'A' <= rest[0] <= 'Z')
    ensures Render(Tokenise([c] + rest), scope) == [c] + Render(Tokenise(rest), scope)
  {
    FirstRenders(Text(c), rest, scope);
  }

  /** A brace that is never closed keeps everything behind it as it is. */
  lemma UnclosedIsKept(tail: string, scope: Scope)
    requires '}' !in tail
    ensures Render(Tokenise("${" + tail), scope) == "${" + tail
  {
    FirstRenders(Unclosed(tail), "", scope);
    assert Print(Unclosed(tail)) + "" == "${" + tail && Tokenise("") == [];
  }

  lemma {:induction false} TextRenders(ts: seq<Token>, scope: Scope)
    requires forall i :: 0 <= i < |ts| ==> !Expandable(ts[i])
    ensures Render(ts, scope) == PrintAll(ts)
  {
    if ts != [] { TextRenders(ts[1..], scope); }
  }

  lemma {:induction false} NoDollarIsText(s: string, scope: Scope)
    requires '$' !in s
    ensures Render(Tokenise(s), scope) == s
    decreases |s|
  {
    if s != "" {
      NoDollarIsText(s[1..], scope);
      assert FirstToken(s) == (Text(s[0]), 1);
      assert ([Text(s[0])] + Tokenise(s[1..]))[1..] == Tokenise(s[1..]);
      assert s == [s[0]] + s[1..];
    }
  }

  // ---------------------------------------------------------- when it is the identity

  /** With nothing in scope the string comes back unchanged. */
  lemma {:induction false} EmptyScopeIsIdentity(s: string)
    ensures Render(Tokenise(s), map[]) == s
  {
    RenderEmpty(Tokenise(s));
    PrintInvertsTokenise(s);
  }

  lemma {:induction false} RenderEmpty(ts: seq<Token>)
    ensures Render(ts, map[]) == PrintAll(ts)
  {
    if ts != [] { RenderEmpty(ts[1..]); }
  }

  /** Longer values can only make the result longer. */
  lemma {:induction false} RenderGrows(ts: seq<Token>, scope: Scope, i: nat)
    requires i < |ts| && Expandable(ts[i]) && ts[i].name in scope
    requires forall n :: n in scope ==> |scope[n]| > |n| + 3
    ensures |Render(ts, scope)| > |PrintAll(ts)|
  {
    if i > 0 {
      assert ts[1..][i - 1] == ts[i];
      RenderGrows(ts[1..], scope, i - 1);
    } else {
      RenderNoShorter(ts[1..], scope);
    }
  }

  lemma {:induction false} RenderNoShorter(ts: seq<Token>, scope: Scope)
    requires forall n :: n in scope ==> |scope[n]| > |n| + 3
    ensures |Render(ts, scope)| >= |PrintAll(ts)|
  {
    if ts != [] { RenderNoShorter(ts[1..], scope); }
  }

  ghost predicate HasExpandable(s: string) {
    exists i :: 0 <= i < |Tokenise(s)| && Expandable(Tokenise(s)[i])
  }

  /** No scope changes the string exactly when it has no well-formed reference. */
  lemma UnchangedIffNothingExpandable(s: string)
    ensures (forall scope: Scope :: Render(Tokenise(s), scope) == s) <==> !HasExpandable(s)
  {
    if HasExpandable(s) {
      var scope := ExpandableChanges(s);
    } else {
      var ts := Tokenise(s);
      PrintInvertsTokenise(s);
      forall scope: Scope ensures Render(ts, scope) == s { TextRenders(ts, scope); }
    }
  }

  /** A scope that changes the text: longer values than any reference for an expandable name. */
  lemma ExpandableChanges(s: string) returns (scope: Scope)
    requires HasExpandable(s)
    ensures Render(Tokenise(s), scope) != s
  {
    var ts := Tokenise(s);
    PrintInvertsTokenise(s);
    var i :| 0 <= i < |ts| && Expandable(ts[i]);
    scope := map[ts[i].name := ts[i].name + "1234"];
    RenderGrows(ts, scope, i);
  }

  // -------------------------------------------------------- contains_placeholder

  lemma {:induction false} TokensUpTo(s: string, i: nat)
    requires i <= |s| && forall j :: 0 <= j < i ==> !StartsReference(s, j)
    ensures |Tokenise(s)| >= i && Tokenise(s)[i..] == Tokenise(s[i..])
    ensures forall j :: 0 <= j < i ==> Tokenise(s)[j].Text?
    decreases i
  {
    if i == 0 {
      assert s[0..] == s;
    } else {
      TokensUpTo(s, i - 1);
      var rest := s[i - 1..];
      assert !StartsReference(s, i - 1);
      assert FirstToken(rest).0.Text? && FirstToken(rest).1 == 1;
      assert rest[1..] == s[i..];
      assert Tokenise(rest)[0] == Tokenise(s)[i - 1] && Tokenise(rest)[1..] == Tokenise(s)[i..];
    }
  }

  /** Whether the string holds a token other than plain text. */
  method ContainsPlaceholder(input: string) returns (r: bool)
    ensures r <==> exists i :: 0 <= i < |Tokenise(input)| && !Tokenise(input)[i].Text?
    ensures HasExpandable(input) ==> r
  {
    for i := 0 to |input|
      invariant forall j :: 0 <= j < i ==> !StartsReference(input, j)
    {
      if StartsReference(input, i) {
        TokensUpTo(input, i);
        assert !FirstToken(input[i..]).0.Text?;
        assert Tokenise(input)[i] == Tokenise(input)[i..][0] == FirstToken(input[i..]).0;
        return true;
      }
    }
    TokensUpTo(input, |input|);
    assert input[|input|..] == "";
    r := false;
  }

  /** A placeholder that no scope can ever replace. */
  lemma PlaceholderNeedNotExpand()
    ensures Tokenise("${") == [Unclosed("")] && !HasExpandable("${")
  {
    assert "${"[2..] == "";
    assert FirstToken("${") == (Unclosed(""), 2);
  }
}
