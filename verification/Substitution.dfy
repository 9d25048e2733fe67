/**
 Multi-round variable substitution in templates. The code scans strings; the properties are stated
 over lists of literals and references and carried over to the strings they render to.
 */
module Substitution {
  import opened Wrappers

  const ROUNDS: nat := 10

  /** The position of the first closing brace, or the length. */
  function FirstBrace(s: string): (i: nat)
    ensures i <= |s| && '}' !in s[..i] && (i < |s| ==> s[i] == '}')
  {
    if s == "" || s[0] == '}' then 0
    else
      assert s == [s[0]] + s[1..];
      1 + FirstBrace(s[1..])
  }

  /** The string starts with a reference to the name. */
  predicate IsReference(open: string, name: string, s: string) {
    open + name + "}" <= s && name != "" && '}' !in name
  }

  lemma {:induction false} BraceAt(s: string, n: nat)
    requires n < |s| && s[n] == '}' && '}' !in s[..n]
    ensures FirstBrace(s) == n
  {
  }

  lemma ReferenceIsFirst(open: string, name: string, s: string)
    requires IsReference(open, name, s)
    ensures open <= s && FirstBrace(s[|open|..]) == |name| && s[|open|..][..|name|] == name
  {
    assert (open + name + "}")[|open|..] == name + "}";
    assert name + "}" <= s[|open|..];
    assert s[|open|..][|name|] == '}' && s[|open|..][..|name|] == name;
    BraceAt(s[|open|..], |name|);
  }

  /** Where the scan looks for the name, and that there is no other place. */
  lemma ScanFindsReference(open: string, s: string)
    requires open <= s
    ensures var rest := s[|open|..];
      var i := FirstBrace(rest);
      && (0 < i < |rest| ==> IsReference(open, rest[..i], s))
      && (forall n :: IsReference(open, n, s) ==> 0 < i < |rest| && n == rest[..i])
  {
    var rest := s[|open|..];
    var i := FirstBrace(rest);
    if 0 < i < |rest| {
      assert s == open + rest[..i] + [rest[i]] + rest[i + 1..];
    }
    forall n | IsReference(open, n, s)
      ensures 0 < i < |rest| && n == rest[..i]
    {
      ReferenceIsFirst(open, n, s);
      assert |open + n + "}"| <= |s|;
    }
  }

  /** The name a reference at the start of the string names, if there is one. */
  function ReferenceAt(open: string, s: string): (name: Option<string>)
    ensures name.Some? ==> IsReference(open, name.value, s)
    ensures forall n :: IsReference(open, n, s) ==> name == Some(n)
  {
    if open <= s then
      ScanFindsReference(open, s);
      var rest := s[|open|..];
      var i := FirstBrace(rest);
      if 0 < i < |rest| then Some(rest[..i]) else None
    else
      NoReference(open, s);
      None
  }

  lemma NoReference(open: string, s: string)
    requires !(open <= s)
    ensures forall n :: !IsReference(open, n, s)
  {
    forall n | IsReference(open, n, s)
      ensures false
    {
      ReferenceIsFirst(open, n, s);
    }
  }

  /** One left-to-right pass over the string: each reference is replaced by its value, if it has one. */
  function Round(open: string, resolve: string -> Option<string>, s: string): string
    decreases |s|
  {
    if s == "" then ""
    else
      var name := ReferenceAt(open, s);
      if name.Some? then
        var length := |open| + |name.value| + 1;
        (if resolve(name.value).Some? then resolve(name.value).value else s[..length]) +
        Round(open, resolve, s[length..])
      else
        [s[0]] + Round(open, resolve, s[1..])
  }

  function Rounds(open: string, resolve: string -> Option<string>, s: string, k: nat): string
    decreases k
  {
    if k == 0 then s else Rounds(open, resolve, Round(open, resolve, s), k - 1)
  }

  lemma {:induction false} FixedStays(open: string, resolve: string -> Option<string>, s: string, k: nat)
    requires Round(open, resolve, s) == s
    ensures Rounds(open, resolve, s, k) == s
    decreases k
  {
    if k > 0 {
      FixedStays(open, resolve, s, k - 1);
    }
  }

  /** The bounded loop: at most ten passes, stopping early when a pass changes nothing. */
  method Substitute(open: string, resolve: string -> Option<string>, text: string) returns (result: string)
    ensures result == Rounds(open, resolve, text, 10)
  {
    result := text;
    for i := 0 to ROUNDS
      invariant Rounds(open, resolve, result, ROUNDS - i) == Rounds(open, resolve, text, ROUNDS)
    {
      hide Round;
      var next := Round(open, resolve, result);
      if next == result {
        FixedStays(open, resolve, result, ROUNDS - i);
        return;
      }
      result := next;
    }
  }

  // ---------- where values come from ----------

  /** Passed-in variables come before the server's settings, those before the process environment. */
  function Lookup(
    key: string, env: map<string, string>, settings: map<string, string>, process: map<string, string>
  ): Option<string> {
    if key in env then Some(env[key])
    else if key in settings then Some(settings[key])
    else if key in process then Some(process[key])
    else None
  }

  /** Credential and agent references are looked up elsewhere; an env. prefix is dropped. */
  function Resolve(
    reference: string, env: map<string, string>, settings: map<string, string>, process: map<string, string>,
    elsewhere: string -> Option<string>
  ): Option<string> {
    if "credential:" <= reference || "agent:" <= reference then elsewhere(reference)
    else if "env." <= reference then Lookup(reference[4..], env, settings, process)
    else Lookup(reference, env, settings, process)
  }

  /** Whatever the sources, a variable can be written with the env. prefix or without. */
  lemma PrefixIsOptional(
    key: string, env: map<string, string>, settings: map<string, string>, process: map<string, string>,
    elsewhere: string -> Option<string>
  )
    requires !("credential:" <= key) && !("agent:" <= key) && !("env." <= key)
    ensures Resolve("env." + key, env, settings, process, elsewhere) == Resolve(key, env, settings, process, elsewhere)
  {
    var reference := "env." + key;
    assert reference[4..] == key && reference[0] == 'e';
    assert "credential:"[0] == 'c' && "agent:"[0] == 'a';
    assert "env." <= reference;
  }

  /** The first source that has the variable decides; a variable that none has stays as it is. */
  lemma FirstSourceDecides(
    key: string, env: map<string, string>, settings: map<string, string>, process: map<string, string>,
    elsewhere: string -> Option<string>
  )
    requires !("credential:" <= key) && !("agent:" <= key) && !("env." <= key)
    ensures key in env ==> Resolve(key, env, settings, process, elsewhere) == Some(env[key])
    ensures key !in env && key in settings ==> Resolve(key, env, settings, process, elsewhere) == Some(settings[key])
    ensures key !in env && key !in settings && key in process ==>
      Resolve(key, env, settings, process, elsewhere) == Some(process[key])
    ensures key !in env && key !in settings && key !in process ==>
      Resolve(key, env, settings, process, elsewhere) == None
  {
  }

  /** Credentials and agents never come from the variables. */
  lemma ElsewhereDecides(
    name: string, env: map<string, string>, settings: map<string, string>, process: map<string, string>,
    elsewhere: string -> Option<string>
  )
    ensures Resolve("credential:" + name, env, settings, process, elsewhere) == elsewhere("credential:" + name)
    ensures Resolve("agent:" + name, env, settings, process, elsewhere) == elsewhere("agent:" + name)
  {
  }

  // ---------- templates as tokens ----------

  datatype Token = Lit(text: string) | Ref(name: string)

  type Env = map<string, seq<Token>>

  function Render(open: string, ts: seq<Token>): string {
    if ts == [] then ""
    else (match ts[0] case Lit(text) => text case Ref(name) => open + name + "}") + Render(open, ts[1..])
  }

  /** A reference opens with a dollar sign and has no other, and no closing brace before its name. */
  ghost predicate Opens(open: string) {
    |open| >= 2 && open[0] == '$' && '$' !in open[1..] && '}' !in open
  }

  /** However the string goes on, no reference starts at its beginning. */
  ghost predicate Passes(open: string, t: string) {
    (exists j :: 0 <= j < |open| && j < |t| && t[j] != open[j]) || open + "}" <= t
  }

  /** The string breaks off inside an opening. */
  ghost predicate Dangles(open: string, t: string) {
    t != "" && t < open
  }

  /** No reference starts inside the text, except perhaps in an opening that breaks off at its end. */
  ghost predicate CleanText(open: string, text: string) {
    forall i :: 0 <= i < |text| ==> Passes(open, text[i..]) || Dangles(open, text[i..])
  }

  /** What follows does not complete an opening that breaks off at the end of the text. */
  ghost predicate Meets(open: string, text: string, next: string) {
    forall i :: 0 <= i < |text| && Dangles(open, text[i..]) ==> next == "" || next[0] != open[|text| - i]
  }

  /** The texts are clean, and none completes an opening of another. */
  ghost predicate CleanTexts(open: string, texts: set<string>) {
    forall a :: a in texts ==> CleanText(open, a) && forall b :: b in texts ==> Meets(open, a, b)
  }

  /** The end of the template may be anything that holds no complete reference. */
  ghost predicate CleanTail(open: string, texts: set<string>, tail: string) {
    && (forall i :: 0 <= i < |tail| ==> ReferenceAt(open, tail[i..]).None?)
    && (forall a :: a in texts ==> Meets(open, a, tail))
  }

  /** Literals from among the texts, and names that end at their brace. */
  ghost predicate Over(texts: set<string>, ts: seq<Token>) {
    forall t :: t in ts ==> OkToken(texts, t)
  }

  ghost predicate OkToken(texts: set<string>, t: Token) {
    match t
    case Lit(text) => text in texts
    case Ref(name) => name != "" && '}' !in name
  }

  ghost predicate OverEnv(texts: set<string>, env: Env) {
    forall n :: n in env ==> Over(texts, env[n])
  }

  /** Templates and values that fit together: substituting never makes a reference across a boundary. */
  ghost predicate Fits(
    open: string, resolve: string -> Option<string>, env: Env, texts: set<string>, ts: seq<Token>, tail: string
  ) {
    && Opens(open) && CleanTexts(open, texts) && CleanTail(open, texts, tail)
    && Over(texts, ts) && OverEnv(texts, env) && Agrees(open, resolve, env)
  }

  function TokenRound(env: Env, ts: seq<Token>): seq<Token> {
    if ts == [] then []
    else (if ts[0].Ref? && ts[0].name in env then env[ts[0].name] else [ts[0]]) + TokenRound(env, ts[1..])
  }

  function TokenRounds(env: Env, ts: seq<Token>, k: nat): seq<Token>
    decreases k
  {
    if k == 0 then ts else TokenRounds(env, TokenRound(env, ts), k - 1)
  }

  /** The strings resolve as the tokens do. */
  ghost predicate Agrees(open: string, resolve: string -> Option<string>, env: Env) {
    forall n :: resolve(n) == if n in env then Some(Render(open, env[n])) else None
  }

  // ---------- scanning a rendered template ----------

  lemma {:induction false} RenderAppend(open: string, a: seq<Token>, b: seq<Token>)
    ensures Render(open, a + b) == Render(open, a) + Render(open, b)
  {
    if a == [] {
      assert a + b == b;
    } else {
      assert (a + b)[1..] == a[1..] + b;
      RenderAppend(open, a[1..], b);
    }
  }

  /** The scan passes over a clean text unchanged. */
  lemma {:induction false} RoundOverLiteral(open: string, resolve: string -> Option<string>, text: string, rest: string)
    requires Opens(open) && CleanText(open, text) && Meets(open, text, rest)
    ensures Round(open, resolve, text + rest) == text + Round(open, resolve, rest)
  {
    hide *;
    if text == "" {
      assert text + rest == rest;
    } else {
      NothingStarts(open, text, rest);
      ShorterText(open, text, rest);
      RoundSkips(open, resolve, text + rest);
      assert (text + rest)[1..] == text[1..] + rest;
      RoundOverLiteral(open, resolve, text[1..], rest);
      assert text + Round(open, resolve, rest) == [text[0]] + (text[1..] + Round(open, resolve, rest));
    }
  }

  /** Where no reference starts, the scan moves on by one character. */
  lemma RoundSkips(open: string, resolve: string -> Option<string>, s: string)
    requires s != "" && ReferenceAt(open, s).None?
    ensures Round(open, resolve, s) == [s[0]] + Round(open, resolve, s[1..])
  {
  }

  lemma NothingStarts(open: string, text: string, rest: string)
    requires Opens(open) && text != "" && CleanText(open, text) && Meets(open, text, rest)
    ensures ReferenceAt(open, text + rest).None?
  {
    var s := text + rest;
    assert text[0..] == text;
    if Dangles(open, text) {
      assert rest != "" ==> s[|text|] == rest[0] && rest[0] != open[|text| - 0];
    } else if open + "}" <= text {
      assert s[|open|..][0] == (open + "}")[|open|] == '}';
    } else {
      var j :| 0 <= j < |open| && j < |text| && text[j] != open[j];
      assert s[j] == text[j];
    }
  }

  lemma ShorterText(open: string, text: string, rest: string)
    requires text != "" && CleanText(open, text) && Meets(open, text, rest)
    ensures CleanText(open, text[1..]) && Meets(open, text[1..], rest)
  {
    forall i | 0 <= i < |text[1..]|
      ensures text[1..][i..] == text[i + 1..]
    {
    }
    hide Passes, Dangles;
    forall i | 0 <= i < |text[1..]|
      ensures Passes(open, text[1..][i..]) || Dangles(open, text[1..][i..])
      ensures Dangles(open, text[1..][i..]) ==> rest == "" || rest[0] != open[|text[1..]| - i]
    {
      assert text[1..][i..] == text[i + 1..];
    }
  }

  /** Without a reference at any position the scan changes nothing. */
  lemma {:induction false} RoundOverTail(open: string, resolve: string -> Option<string>, tail: string)
    requires forall i :: 0 <= i < |tail| ==> ReferenceAt(open, tail[i..]).None?
    ensures Round(open, resolve, tail) == tail
  {
    if tail != "" {
      assert tail[0..] == tail;
      forall i | 0 <= i < |tail[1..]|
        ensures ReferenceAt(open, tail[1..][i..]).None?
      {
        assert tail[1..][i..] == tail[i + 1..];
      }
      RoundOverTail(open, resolve, tail[1..]);
    }
  }

  /** A text meets whatever a template over the same texts renders to. */
  lemma {:induction false} MeetsRendered(
    open: string, texts: set<string>, ts: seq<Token>, tail: string, text: string
  )
    requires Opens(open) && CleanTexts(open, texts) && CleanTail(open, texts, tail) && Over(texts, ts) && text in texts
    ensures Meets(open, text, Render(open, ts) + tail)
  {
    if ts == [] {
      assert Render(open, ts) + tail == tail;
    } else {
      assert OkToken(texts, ts[0]);
      var next := Render(open, ts) + tail;
      if ts[0].Ref? {
        assert next[0] == '$';
      } else if ts[0].text == "" {
        MeetsRendered(open, texts, ts[1..], tail, text);
        assert next == Render(open, ts[1..]) + tail;
      } else {
        assert Meets(open, text, ts[0].text);
        assert next[0] == ts[0].text[0];
      }
    }
  }

  lemma RoundOverReference(open: string, resolve: string -> Option<string>, name: string, rest: string)
    requires Opens(open) && name != "" && '}' !in name
    ensures Round(open, resolve, open + name + "}" + rest) ==
      (if resolve(name).Some? then resolve(name).value else open + name + "}") + Round(open, resolve, rest)
  {
    var s := open + name + "}" + rest;
    assert IsReference(open, name, s);
    var length := |open| + |name| + 1;
    assert s[..length] == open + name + "}" && s[length..] == rest;
  }

  /** A pass over the rendered template is the rendering of a pass over its tokens. */
  lemma {:induction false} RoundOfRender(
    open: string, resolve: string -> Option<string>, env: Env, texts: set<string>, ts: seq<Token>, tail: string
  )
    requires Fits(open, resolve, env, texts, ts, tail)
    ensures Round(open, resolve, Render(open, ts) + tail) == Render(open, TokenRound(env, ts)) + tail
  {
    if ts == [] {
      RoundOverTail(open, resolve, tail);
      assert Render(open, ts) + tail == tail;
      assert Render(open, TokenRound(env, ts)) + tail == tail;
    } else {
      RoundOfRender(open, resolve, env, texts, ts[1..], tail);
      RoundOfFirst(open, resolve, env, texts, ts, tail);
      var first := if ts[0].Ref? && ts[0].name in env then env[ts[0].name] else [ts[0]];
      RenderAppend(open, first, TokenRound(env, ts[1..]));
    }
  }

  /** The scan takes the first token off. */
  lemma RoundOfFirst(
    open: string, resolve: string -> Option<string>, env: Env, texts: set<string>, ts: seq<Token>, tail: string
  )
    requires Fits(open, resolve, env, texts, ts, tail) && ts != []
    ensures Round(open, resolve, Render(open, ts) + tail) ==
      Render(open, if ts[0].Ref? && ts[0].name in env then env[ts[0].name] else [ts[0]]) +
      Round(open, resolve, Render(open, ts[1..]) + tail)
  {
    hide *;
    var rest := Render(open, ts[1..]) + tail;
    RenderSplit(open, ts, tail);
    RenderOne(open, ts[0]);
    FitsParts(open, resolve, env, texts, ts, tail);
    if ts[0].Lit? {
      MeetsRendered(open, texts, ts[1..], tail, ts[0].text);
      RoundOverLiteral(open, resolve, ts[0].text, rest);
    } else {
      RoundOverReference(open, resolve, ts[0].name, rest);
    }
  }

  lemma RenderSplit(open: string, ts: seq<Token>, tail: string)
    requires ts != []
    ensures Render(open, ts) + tail == Render(open, [ts[0]]) + (Render(open, ts[1..]) + tail)
  {
    hide Render;
    RenderFirst(open, ts);
    Regrouped(Render(open, [ts[0]]), Render(open, ts[1..]), tail);
  }

  lemma RenderFirst(open: string, ts: seq<Token>)
    requires ts != []
    ensures Render(open, ts) == Render(open, [ts[0]]) + Render(open, ts[1..])
  {
    RenderOne(open, ts[0]);
  }

  lemma Regrouped(a: string, b: string, c: string)
    ensures (a + b) + c == a + (b + c)
  {
  }

  lemma FitsParts(
    open: string, resolve: string -> Option<string>, env: Env, texts: set<string>, ts: seq<Token>, tail: string
  )
    requires Fits(open, resolve, env, texts, ts, tail) && ts != []
    ensures Opens(open) && CleanTexts(open, texts) && CleanTail(open, texts, tail) && Over(texts, ts[1..])
    ensures ts[0].Lit? ==> ts[0].text in texts && CleanText(open, ts[0].text)
    ensures ts[0].Ref? ==> ts[0].name != "" && '}' !in ts[0].name
    ensures forall n :: resolve(n) == if n in env then Some(Render(open, env[n])) else None
  {
    assert OkToken(texts, ts[0]);
  }

  lemma RenderOne(open: string, t: Token)
    ensures Render(open, [t]) == if t.Lit? then t.text else open + t.name + "}"
  {
    assert [t][1..] == [];
  }

  /** A pass leaves the template over the same texts. */
  lemma RoundFits(
    open: string, resolve: string -> Option<string>, env: Env, texts: set<string>, ts: seq<Token>, tail: string
  )
    requires Fits(open, resolve, env, texts, ts, tail)
    ensures Fits(open, resolve, env, texts, TokenRound(env, ts), tail)
  {
    forall t | t in TokenRound(env, ts)
      ensures OkToken(texts, t)
    {
      RoundMembers(env, ts, t);
    }
    hide Opens, CleanTexts, CleanTail, Agrees;
  }

  lemma {:induction false} RoundsOfRender(
    open: string, resolve: string -> Option<string>, env: Env, texts: set<string>, ts: seq<Token>, tail: string, k: nat
  )
    requires Fits(open, resolve, env, texts, ts, tail)
    ensures Rounds(open, resolve, Render(open, ts) + tail, k) == Render(open, TokenRounds(env, ts, k)) + tail
    ensures Fits(open, resolve, env, texts, TokenRounds(env, ts, k), tail)
    decreases k
  {
    if k > 0 {
      hide Fits, Round, Render, TokenRound;
      RoundOfRender(open, resolve, env, texts, ts, tail);
      RoundFits(open, resolve, env, texts, ts, tail);
      RoundsOfRender(open, resolve, env, texts, TokenRound(env, ts), tail, k - 1);
    }
  }

  // ---------- chains of references ----------

  /** k references follow one another, each in the value of the one before. */
  ghost predicate HasRefChain(env: Env, ts: seq<Token>, k: nat)
    decreases k
  {
    k == 0 || exists n :: Ref(n) in ts && n in env && HasRefChain(env, env[n], k - 1)
  }

  /** No reference is left that has a value. */
  ghost predicate Resolved(env: Env, ts: seq<Token>) {
    forall n :: Ref(n) in ts ==> n !in env
  }

  lemma {:induction false} RoundMembers(env: Env, ts: seq<Token>, t: Token)
    ensures t in TokenRound(env, ts) <==>
      || (t in ts && !(t.Ref? && t.name in env))
      || exists n :: Ref(n) in ts && n in env && t in env[n]
  {
    if ts != [] {
      RoundMembers(env, ts[1..], t);
      assert ts == [ts[0]] + ts[1..];
    }
  }

  /** A pass shortens every chain of references by one. */
  lemma RoundShortensChains(env: Env, ts: seq<Token>, k: nat)
    requires k > 0
    ensures HasRefChain(env, TokenRound(env, ts), k) <==> HasRefChain(env, ts, k + 1)
  {
    if HasRefChain(env, TokenRound(env, ts), k) {
      var m :| Ref(m) in TokenRound(env, ts) && m in env && HasRefChain(env, env[m], k - 1);
      RoundMembers(env, ts, Ref(m));
      var n :| Ref(n) in ts && n in env && Ref(m) in env[n];
      assert HasRefChain(env, env[n], k);
    }
    if HasRefChain(env, ts, k + 1) {
      var n :| Ref(n) in ts && n in env && HasRefChain(env, env[n], k);
      var m :| Ref(m) in env[n] && m in env && HasRefChain(env, env[m], k - 1);
      RoundMembers(env, ts, Ref(m));
    }
  }

  lemma {:induction false} RoundsShortenChains(env: Env, ts: seq<Token>, j: nat, k: nat)
    requires k > 0
    ensures HasRefChain(env, TokenRounds(env, ts, j), k) <==> HasRefChain(env, ts, k + j)
    decreases j
  {
    if j > 0 {
      RoundsShortenChains(env, TokenRound(env, ts), j - 1, k);
      RoundShortensChains(env, ts, k + j - 1);
    }
  }

  lemma ResolvedMeansNoChain(env: Env, ts: seq<Token>)
    ensures Resolved(env, ts) <==> !HasRefChain(env, ts, 1)
  {
  }

  lemma {:induction false} ResolvedIsFixed(env: Env, ts: seq<Token>)
    requires Resolved(env, ts)
    ensures TokenRound(env, ts) == ts
  {
    if ts != [] {
      assert ts == [ts[0]] + ts[1..];
      assert ts[0] in ts;
      ResolvedIsFixed(env, ts[1..]);
    }
  }

  /**
   A loop of so many passes leaves no resolvable reference exactly when the template starts no longer
   chain of references; and then substituting the result again changes nothing.
   */
  lemma RoundsResolveIff(
    open: string, resolve: string -> Option<string>, env: Env, texts: set<string>, ts: seq<Token>, tail: string, k: nat
  )
    requires Fits(open, resolve, env, texts, ts, tail)
    ensures Rounds(open, resolve, Render(open, ts) + tail, k) == Render(open, TokenRounds(env, ts, k)) + tail
    ensures Resolved(env, TokenRounds(env, ts, k)) <==> !HasRefChain(env, ts, k + 1)
    ensures !HasRefChain(env, ts, k + 1) ==>
      var result := Rounds(open, resolve, Render(open, ts) + tail, k);
      Round(open, resolve, result) == result && Rounds(open, resolve, result, k) == result
  {
    hide *;
    RoundsOfRender(open, resolve, env, texts, ts, tail, k);
    var done := TokenRounds(env, ts, k);
    ResolvedMeansNoChain(env, done);
    RoundsShortenChains(env, ts, k, 1);
    if Resolved(env, done) {
      ResolvedIsFixed(env, done);
      RoundOfRender(open, resolve, env, texts, done, tail);
      FixedStays(open, resolve, Render(open, done) + tail, k);
    }
  }

  /** The loop of ten passes on a template. */
  method SubstituteTemplate(
    open: string, resolve: string -> Option<string>, ghost env: Env, ghost texts: set<string>, ghost ts: seq<Token>,
    ghost tail: string, text: string
  ) returns (result: string)
    requires Fits(open, resolve, env, texts, ts, tail) && text == Render(open, ts) + tail
    ensures result == Render(open, TokenRounds(env, ts, 10)) + tail
    ensures Resolved(env, TokenRounds(env, ts, 10)) <==> !HasRefChain(env, ts, 11)
    ensures !HasRefChain(env, ts, 11) ==> Rounds(open, resolve, result, 10) == result
  {
    hide *;
    result := Substitute(open, resolve, text);
    RoundsResolveIff(open, resolve, env, texts, ts, tail, 10);
  }

  /** A variable that refers to itself is never resolved, however many passes there are. */
  lemma {:induction false} SelfReferenceStays(name: string, k: nat)
    ensures HasRefChain(map[name := [Ref(name)]], [Ref(name)], k)
    ensures !Resolved(map[name := [Ref(name)]], TokenRounds(map[name := [Ref(name)]], [Ref(name)], k))
    decreases k
  {
    var env := map[name := [Ref(name)]];
    if k > 0 {
      SelfReferenceStays(name, k - 1);
      assert [Ref(name)][1..] == [] && TokenRound(env, [Ref(name)]) == [Ref(name)] + [];
    }
    assert Ref(name) in [Ref(name)] && env[name] == [Ref(name)];
  }

  lemma WithoutDollar(open: string, s: string)
    requires Opens(open) && '$' !in s
    ensures forall i :: 0 <= i < |s| ==> ReferenceAt(open, s[i..]).None?
  {
    forall i | 0 <= i < |s|
      ensures ReferenceAt(open, s[i..]).None?
    {
      assert s[i..][0] == s[i] && s[i] != open[0];
    }
  }

  /**
   Why texts must fit together: a value that is a lone dollar sign completes the opening in the text behind its
   reference. The pass makes a reference that neither the template nor any value contains.
   */
  lemma ValueCompletesOpening(open: string, resolve: string -> Option<string>, a: string, b: string)
    requires Opens(open) && a != "" && b != "" && '}' !in a && '}' !in b && '$' !in b
    requires resolve(a) == Some("$")
    ensures Round(open, resolve, open + a + "}" + (open[1..] + b + "}")) == open + b + "}"
    ensures ReferenceAt(open, open + b + "}") == Some(b)
    ensures forall i :: 0 <= i < |open[1..] + b + "}"| ==> ReferenceAt(open, (open[1..] + b + "}")[i..]).None?
  {
    var rest := open[1..] + b + "}";
    hide *;
    OpeningCompleted(open, b);
    WithoutDollar(open, rest);
    RoundOverTail(open, resolve, rest);
    RoundOverReference(open, resolve, a, rest);
  }

  lemma OpeningCompleted(open: string, b: string)
    requires Opens(open) && b != "" && '}' !in b && '$' !in b
    ensures '$' !in open[1..] + b + "}" && "$" + (open[1..] + b + "}") == open + b + "}"
    ensures ReferenceAt(open, open + b + "}") == Some(b)
  {
    assert IsReference(open, b, open + b + "}");
  }

  /** Ranks under which every value refers only to strictly lower names bound the chains. */
  lemma {:induction false} RankBoundsChains(env: Env, rank: string -> nat, ts: seq<Token>, bound: nat)
    requires forall n, m :: n in env && m in env && Ref(m) in env[n] ==> rank(m) < rank(n)
    requires forall n :: Ref(n) in ts && n in env ==> rank(n) < bound
    ensures !HasRefChain(env, ts, bound + 1)
    decreases bound
  {
    if HasRefChain(env, ts, bound + 1) {
      var n :| Ref(n) in ts && n in env && HasRefChain(env, env[n], bound);
      RankBoundsChains(env, rank, env[n], rank(n));
      ChainPrefix(env, env[n], rank(n) + 1, bound);
    }
  }

  lemma {:induction false} ChainPrefix(env: Env, ts: seq<Token>, j: nat, k: nat)
    requires j <= k && HasRefChain(env, ts, k)
    ensures HasRefChain(env, ts, j)
    decreases j
  {
    if j > 0 {
      var n :| Ref(n) in ts && n in env && HasRefChain(env, env[n], k - 1);
      ChainPrefix(env, env[n], j - 1, k - 1);
    }
  }
}
