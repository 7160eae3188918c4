/** The typed path patterns of the FastAPI generation (`ParametrizedPath` in trickster/router.py).

    A pattern is literal text with placeholders `{name:type}`. The source compiles it into a
    Python regular expression anchored at both ends, in which every placeholder becomes a named
    group over a fixed per-type language. That regular expression is a concatenation of literal
    characters and greedy groups, so Python's backtracking search is a depth-first search that
    tries, for each group, the longest candidate first. The model compiles a pattern to a list of
    tokens and matches with exactly that search. */
module PathPattern {
  import opened Wrappers

  /** The placeholder types, with the names used inside `{name:type}`. */
  datatype VarType = Integer | Number | Str | Boolean | Uuid4

  function TypeName(t: VarType): string {
    match t
    case Integer => "integer"
    case Number => "number"
    case Str => "string"
    case Boolean => "boolean"
    case Uuid4 => "uuid4"
  }

  // ---------------------------------------------------------------------------
  // Character classes and the per-type languages
  // ---------------------------------------------------------------------------

  /** `\d`, restricted to the ASCII digits. */
  predicate IsDigit(c: char) { '0' <= c <= '9' }

  /** `[a-f0-9]`. */
  predicate IsLowerHex(c: char) { IsDigit(c) || 'a' <= c <= 'f' }

  /** `\w`, restricted to ASCII letters, digits and underscore. */
  predicate IsWordChar(c: char) { IsDigit(c) || 'a' <= c <= 'z' || 'A' <= c <= 'Z' || c == '_' }

  /** `\s` in a Python str pattern: the characters for which `str.isspace` holds. */
  predicate IsSpace(c: char) {
    || c == ' ' || '\t' <= c <= '\r' || '\U{1c}' <= c <= '\U{1f}'
    || c == '\U{85}' || c == '\U{a0}' || c == '\U{1680}' || '\U{2000}' <= c <= '\U{200a}'
    || c == '\U{2028}' || c == '\U{2029}' || c == '\U{202f}' || c == '\U{205f}' || c == '\U{3000}'
  }

  predicate AllDigits(s: string) { forall i :: 0 <= i < |s| ==> IsDigit(s[i]) }

  /** `integer`: `[1-9]\d*`. */
  predicate IsIntegerText(s: string) { |s| > 0 && '1' <= s[0] <= '9' && AllDigits(s[1..]) }

  /** `number`: `\d+(?:[.,]\d+)?`. */
  predicate IsNumberText(s: string) {
    || (|s| > 0 && AllDigits(s))
    || exists i :: 0 < i < |s| - 1 && (s[i] == '.' || s[i] == ',') && AllDigits(s[..i]) && AllDigits(s[i + 1..])
  }

  /** `string`: `[^\\/\s?]+`. */
  predicate IsStringText(s: string) {
    |s| > 0 && forall i :: 0 <= i < |s| ==> s[i] != '\\' && s[i] != '/' && s[i] != '?' && !IsSpace(s[i])
  }

  /** `boolean`: `[01]`. */
  predicate IsBooleanText(s: string) { s == "0" || s == "1" }

  /** `uuid4`: the lower-case textual UUID of RFC 4122 section 3, with version digit `4` and a
      variant digit in `[89ab]` (section 4.4). */
  predicate IsUuid4Text(s: string) {
    && |s| == 36
    && (forall i :: 0 <= i < 36 && i != 8 && i != 13 && i != 18 && i != 23 ==> IsLowerHex(s[i]))
    && s[8] == '-' && s[13] == '-' && s[18] == '-' && s[23] == '-'
    && s[14] == '4' && s[19] in "89ab"
  }

  /** The language a placeholder of type `t` accepts. */
  predicate InLanguage(t: VarType, s: string) {
    match t
    case Integer => IsIntegerText(s)
    case Number => IsNumberText(s)
    case Str => IsStringText(s)
    case Boolean => IsBooleanText(s)
    case Uuid4 => IsUuid4Text(s)
  }

  /** No placeholder accepts the empty text, a `/` or a newline: a placeholder never spans two
      path segments. */
  lemma LanguageShape(t: VarType, s: string)
    requires InLanguage(t, s)
    ensures |s| > 0 && '/' !in s && '\n' !in s
  {
    if t == Number && !(|s| > 0 && AllDigits(s)) {
      var i :| 0 < i < |s| - 1 && (s[i] == '.' || s[i] == ',') && AllDigits(s[..i]) && AllDigits(s[i + 1..]);
      forall k | 0 <= k < |s| ensures s[k] != '/' && s[k] != '\n' {
        if k < i { assert s[k] == s[..i][k]; } else if k > i { assert s[k] == s[i + 1..][k - i - 1]; }
      }
    }
    if t == Integer {
      forall k | 0 < k < |s| ensures s[k] != '/' && s[k] != '\n' { assert s[k] == s[1..][k - 1]; }
    }
    if t == Uuid4 {
      forall k | 0 <= k < |s| ensures s[k] != '/' && s[k] != '\n' {
        if k != 8 && k != 13 && k != 18 && k != 23 { assert IsLowerHex(s[k]); }
      }
    }
  }

  // ---------------------------------------------------------------------------
  // Normalization
  // ---------------------------------------------------------------------------

  /** `_normalize`: a path always starts with `/`; one is prepended exactly when it is missing,
      and the rest of the text, a trailing `/` included, is kept. */
  function Normalize(p: string): (r: string)
    ensures |r| > 0 && r[0] == '/'
    ensures |p| <= |r| <= |p| + 1 && r[|r| - |p|..] == p
    ensures |p| > 0 && p[0] == '/' ==> r == p
  {
    if |p| > 0 && p[0] == '/' then p else "/" + p
  }

  lemma NormalizeIdempotent(p: string)
    ensures Normalize(Normalize(p)) == Normalize(p)
  {
  }

  // ---------------------------------------------------------------------------
  // Compilation: tokens and group names
  // ---------------------------------------------------------------------------

  /** One element of a compiled pattern: a literal character or a named typed group. */
  datatype Token = Lit(c: char) | Var(name: string, ty: VarType)

  /** The end of the run of word characters that starts at `i`. */
  function WordEnd(p: string, i: nat): (e: nat)
    requires i <= |p|
    ensures i <= e <= |p|
    ensures forall k :: i <= k < e ==> IsWordChar(p[k])
    ensures e < |p| ==> !IsWordChar(p[e])
    decreases |p| - i
  {
    if i < |p| && IsWordChar(p[i]) then WordEnd(p, i + 1) else i
  }

  predicate HasAt(p: string, j: nat, w: string) {
    j + |w| <= |p| && p[j..j + |w|] == w
  }

  /** The alternation `integer|number|string|boolean|uuid4` of the source, in its order. */
  const Alternation: seq<VarType> := [Integer, Number, Str, Boolean, Uuid4]

  /** The first type of `ts` whose name, followed by `}`, starts at `j`. */
  function TypeFrom(p: string, j: nat, ts: seq<VarType>): (r: Option<VarType>)
    ensures r.Some? ==> r.value in ts && HasAt(p, j, TypeName(r.value) + "}")
  {
    if ts == [] then None
    else if HasAt(p, j, TypeName(ts[0]) + "}") then Some(ts[0])
    else TypeFrom(p, j, ts[1..])
  }

  /** The type name, followed by `}`, that starts at `j`, tried in the order of the source's
      alternation. */
  function TypeAt(p: string, j: nat): (r: Option<VarType>)
    ensures r.Some? ==> HasAt(p, j, TypeName(r.value) + "}")
  {
    TypeFrom(p, j, Alternation)
  }

  /** The placeholder `{name:type}` (name `\w+`) that the source's `variables_regex` finds at
      position `i`, if any: its name, its type and the index just past its closing brace. */
  function PlaceholderAt(p: string, i: nat): (r: Option<(string, VarType, nat)>)
    requires i <= |p|
    ensures r.Some? ==> i < r.value.2 <= |p|
  {
    if i < |p| && p[i] == '{' then PlaceholderTo(p, i, WordEnd(p, i + 1)) else None
  }

  /** The rest of a placeholder whose `{` is at `i` and whose name runs up to `e`: a `:` must
      follow, then a type name and `}`. */
  function PlaceholderTo(p: string, i: nat, e: nat): (r: Option<(string, VarType, nat)>)
    requires i < e <= |p|
    ensures r.Some? ==> i < r.value.2 <= |p|
  {
    if e > i + 1 && e < |p| && p[e] == ':' then
      match TypeAt(p, e + 1)
      case Some(t) => Some((p[i + 1..e], t, e + 2 + |TypeName(t)|))
      case None => None
    else None
  }

  /** The tokens of `p` from position `i` on: every placeholder found scanning left to right
      becomes a group, every other character a literal. */
  function TokenizeFrom(p: string, i: nat): seq<Token>
    requires i <= |p|
    decreases |p| - i
  {
    if i == |p| then []
    else match PlaceholderAt(p, i)
      case Some((n, t, e)) => [Var(n, t)] + TokenizeFrom(p, e)
      case None => [Lit(p[i])] + TokenizeFrom(p, i + 1)
  }

  function Tokenize(p: string): seq<Token> {
    TokenizeFrom(p, 0)
  }

  /** Why Python's `re.compile` rejects the generated regular expression. */
  datatype CompileError = BadGroupName(name: string) | RedefinedGroup(name: string)

  /** A Python group name must be an identifier: `\w+` not starting with a digit. */
  predicate ValidGroupName(n: string) { |n| > 0 && !IsDigit(n[0]) }

  predicate NamesDistinct(toks: seq<Token>) {
    forall i, j :: 0 <= i < j < |toks| && toks[i].Var? && toks[j].Var? ==> toks[i].name != toks[j].name
  }

  predicate NamesValid(toks: seq<Token>) {
    forall i :: 0 <= i < |toks| && toks[i].Var? ==> ValidGroupName(toks[i].name)
  }

  function NameSet(toks: seq<Token>): set<string> {
    set i | 0 <= i < |toks| && toks[i].Var? :: toks[i].name
  }

  /** The group-name check of `re.compile`, group by group from the left: a name that is not an
      identifier, or a name already used by an earlier group (in `seen`), is an error. */
  function CheckGroups(toks: seq<Token>, seen: set<string>): (r: Option<CompileError>)
    ensures r.None? <==> NamesValid(toks) && NamesDistinct(toks) && NameSet(toks) !! seen
    decreases |toks|
  {
    if toks == [] then None
    else match toks[0]
      case Lit(_) =>
        var r := CheckGroups(toks[1..], seen);
        assert NameSet(toks) == NameSet(toks[1..]) by {
          forall n | n in NameSet(toks) ensures n in NameSet(toks[1..]) {
            var i :| 0 <= i < |toks| && toks[i].Var? && toks[i].name == n;
            assert toks[1..][i - 1] == toks[i];
          }
        }
        assert NamesDistinct(toks[1..]) ==> NamesDistinct(toks) by {
          if NamesDistinct(toks[1..]) {
            forall i, j | 0 <= i < j < |toks| && toks[i].Var? && toks[j].Var?
              ensures toks[i].name != toks[j].name
            {
              assert toks[1..][i - 1] == toks[i] && toks[1..][j - 1] == toks[j];
            }
          }
        }
        assert NamesValid(toks[1..]) ==> NamesValid(toks) by {
          if NamesValid(toks[1..]) {
            forall i | 0 <= i < |toks| && toks[i].Var? ensures ValidGroupName(toks[i].name) {
              assert toks[1..][i - 1] == toks[i];
            }
          }
        }
        r
      case Var(n, _) =>
        if !ValidGroupName(n) then Some(BadGroupName(n))
        else if n in seen then Some(RedefinedGroup(n))
        else
          var r := CheckGroups(toks[1..], seen + {n});
          NameSetCons(toks);
          assert NamesDistinct(toks) <==> NamesDistinct(toks[1..]) && n !in NameSet(toks[1..]) by {
            if NamesDistinct(toks[1..]) && n !in NameSet(toks[1..]) {
              forall i, j | 0 <= i < j < |toks| && toks[i].Var? && toks[j].Var?
                ensures toks[i].name != toks[j].name
              {
                assert toks[1..][j - 1] == toks[j];
                if i > 0 { assert toks[1..][i - 1] == toks[i]; }
              }
            }
            if NamesDistinct(toks) {
              forall i, j | 0 <= i < j < |toks| - 1 && toks[1..][i].Var? && toks[1..][j].Var?
                ensures toks[1..][i].name != toks[1..][j].name
              {
                assert toks[1..][i] == toks[i + 1] && toks[1..][j] == toks[j + 1];
              }
              forall k | 0 <= k < |toks| - 1 && toks[1..][k].Var? ensures toks[1..][k].name != n {
                assert toks[1..][k] == toks[k + 1];
              }
            }
          }
          assert NamesValid(toks) <==> NamesValid(toks[1..]) by {
            if NamesValid(toks[1..]) {
              forall i | 0 <= i < |toks| && toks[i].Var? ensures ValidGroupName(toks[i].name) {
                if i > 0 { assert toks[1..][i - 1] == toks[i]; }
              }
            }
            if NamesValid(toks) {
              forall k | 0 <= k < |toks| - 1 && toks[1..][k].Var? ensures ValidGroupName(toks[1..][k].name) {
                assert toks[1..][k] == toks[k + 1];
              }
            }
          }
          r
  }

  lemma NameSetCons(toks: seq<Token>)
    requires |toks| > 0
    ensures toks[0].Var? ==> NameSet(toks) == {toks[0].name} + NameSet(toks[1..])
    ensures toks[0].Lit? ==> NameSet(toks) == NameSet(toks[1..])
  {
    forall n | n in NameSet(toks) ensures n in NameSet(toks[1..]) || (toks[0].Var? && n == toks[0].name) {
      var i :| 0 <= i < |toks| && toks[i].Var? && toks[i].name == n;
      if i > 0 { assert toks[1..][i - 1] == toks[i]; }
    }
    forall n | n in NameSet(toks[1..]) ensures n in NameSet(toks) {
      var k :| 0 <= k < |toks| - 1 && toks[1..][k].Var? && toks[1..][k].name == n;
      assert toks[k + 1] == toks[1..][k];
    }
  }

  /** The compiled form of a stored path: `path_regex`. */
  function Compile(p: string): (r: Result<seq<Token>, CompileError>)
    ensures r.Ok? <==> NamesValid(Tokenize(p)) && NamesDistinct(Tokenize(p))
    ensures r.Ok? ==> r.value == Tokenize(p)
  {
    match CheckGroups(Tokenize(p), {})
    case None => Ok(Tokenize(p))
    case Some(e) => Err(e)
  }

  /** One step of the scan: the token at `i` and the position after it. */
  lemma TokenizeStep(p: string, i: nat, tok: Token, next: nat)
    requires i < |p|
    requires PlaceholderAt(p, i).Some? ==>
      tok == Var(PlaceholderAt(p, i).value.0, PlaceholderAt(p, i).value.1) && next == PlaceholderAt(p, i).value.2
    requires PlaceholderAt(p, i).None? ==> tok == Lit(p[i]) && next == i + 1
    ensures i < next <= |p|
    ensures TokenizeFrom(p, i) == [tok] + TokenizeFrom(p, next)
  {
  }

  lemma AppendStep<T>(xs: seq<T>, x: T, ys: seq<T>)
    ensures xs + ([x] + ys) == (xs + [x]) + ys
  {
  }

  /** `path_regex`, computed the way the source does it: one pass over the placeholders that
      `variables_regex` finds, each replaced by its typed group, then `re.compile`. */
  method PathRegex(path: string) returns (r: Result<seq<Token>, CompileError>)
    ensures r == Compile(path)
  {
    var toks: seq<Token> := [];
    var i := 0;
    while i < |path|
      invariant 0 <= i <= |path|
      invariant toks + TokenizeFrom(path, i) == Tokenize(path)
      decreases |path| - i
    {
      var next: nat;
      var tok: Token;
      var found := PlaceholderAt(path, i);
      if found.Some? {
        tok, next := Var(found.value.0, found.value.1), found.value.2;
      } else {
        tok, next := Lit(path[i]), i + 1;
      }
      TokenizeStep(path, i, tok, next);
      AppendStep(toks, tok, TokenizeFrom(path, next));
      toks, i := toks + [tok], next;
    }
    assert toks == Tokenize(path);
    match CheckGroups(toks, {}) {
      case None => r := Ok(toks);
      case Some(e) => r := Err(e);
    }
  }

  // ---------------------------------------------------------------------------
  // Matching
  // ---------------------------------------------------------------------------

  /** Captured path parameters: group name to the raw captured text. */
  type Params = map<string, string>

  /** The anchored match of `^...$`: Python's `$` also accepts a single newline that ends the
      subject. The first success of the depth-first search is returned, with its captures. */
  function MatchFrom(toks: seq<Token>, s: string): Option<Params>
    decreases |toks|, |s| + 1
  {
    if toks == [] then
      if s == "" || s == "\n" then Some(map[]) else None
    else match toks[0]
      case Lit(c) => if |s| > 0 && s[0] == c then MatchFrom(toks[1..], s[1..]) else None
      case Var(n, t) => TryLengths(n, t, toks[1..], s, |s|)
  }

  /** A greedy group: candidate lengths `k`, `k - 1`, ..., `1`, each tried against the rest. */
  function TryLengths(n: string, t: VarType, rest: seq<Token>, s: string, k: nat): Option<Params>
    requires k <= |s|
    decreases |rest| + 1, k
  {
    if k == 0 then None
    else if InLanguage(t, s[..k]) && MatchFrom(rest, s[k..]).Some? then
      Some(MatchFrom(rest, s[k..]).value[n := s[..k]])
    else TryLengths(n, t, rest, s, k - 1)
  }

  /** A stored pattern; construction (`validate_model`) normalizes the raw text. */
  datatype ParametrizedPath = ParametrizedPath(path: string)

  function FromRaw(value: string): (r: ParametrizedPath)
    ensures |r.path| > 0 && r.path[0] == '/'
    ensures r.path == value || r.path == "/" + value
  {
    ParametrizedPath(Normalize(value))
  }

  /** `match_path`: the request path is normalized, then matched against the compiled pattern;
      a pattern that does not compile raises. */
  function MatchPath(pp: ParametrizedPath, request: string): Result<Option<Params>, CompileError> {
    match Compile(pp.path)
    case Err(e) => Err(e)
    case Ok(toks) => Ok(MatchFrom(toks, Normalize(request)))
  }

  // ---------------------------------------------------------------------------
  // What a match means
  // ---------------------------------------------------------------------------

  /** The text a token list stands for when every group takes its value from `m`. */
  function Fill(toks: seq<Token>, m: Params): string
    requires NameSet(toks) <= m.Keys
  {
    if toks == [] then ""
    else
      NameSetCons(toks);
      match toks[0]
      case Lit(c) => [c] + Fill(toks[1..], m)
      case Var(n, _) => m[n] + Fill(toks[1..], m)
  }

  /** Every group's value belongs to its type's language. */
  predicate Typed(toks: seq<Token>, m: Params) {
    forall i :: 0 <= i < |toks| && toks[i].Var? ==> toks[i].name in m && InLanguage(toks[i].ty, m[toks[i].name])
  }

  lemma FillIgnoresOtherNames(toks: seq<Token>, m: Params, n: string, v: string)
    requires NameSet(toks) <= m.Keys && n !in NameSet(toks)
    ensures Fill(toks, m[n := v]) == Fill(toks, m)
    decreases |toks|
  {
    if toks != [] {
      NameSetCons(toks);
      FillIgnoresOtherNames(toks[1..], m, n, v);
    }
  }

  lemma TypedTail(toks: seq<Token>, m: Params)
    requires |toks| > 0 && Typed(toks, m)
    ensures Typed(toks[1..], m)
  {
    forall k | 0 <= k < |toks| - 1 && toks[1..][k].Var?
      ensures toks[1..][k].name in m && InLanguage(toks[1..][k].ty, m[toks[1..][k].name])
    {
      assert toks[1..][k] == toks[k + 1];
    }
  }

  lemma DistinctTail(toks: seq<Token>)
    requires |toks| > 0 && NamesDistinct(toks)
    ensures NamesDistinct(toks[1..])
    ensures toks[0].Var? ==> toks[0].name !in NameSet(toks[1..])
  {
    forall i, j | 0 <= i < j < |toks| - 1 && toks[1..][i].Var? && toks[1..][j].Var?
      ensures toks[1..][i].name != toks[1..][j].name
    {
      assert toks[1..][i] == toks[i + 1] && toks[1..][j] == toks[j + 1];
    }
    if toks[0].Var? {
      forall k | 0 <= k < |toks| - 1 && toks[1..][k].Var? ensures toks[1..][k].name != toks[0].name {
        assert toks[1..][k] == toks[k + 1];
      }
    }
  }

  /** A successful greedy group tried some length `j` whose text is in the language and after
      which the rest matched. */
  lemma {:induction false} TryLengthsWitness(n: string, t: VarType, rest: seq<Token>, s: string, k: nat)
    returns (j: nat)
    requires k <= |s| && TryLengths(n, t, rest, s, k).Some?
    ensures 0 < j <= k && InLanguage(t, s[..j]) && MatchFrom(rest, s[j..]).Some?
    ensures TryLengths(n, t, rest, s, k) == Some(MatchFrom(rest, s[j..]).value[n := s[..j]])
    decreases k
  {
    if InLanguage(t, s[..k]) && MatchFrom(rest, s[k..]).Some? {
      j := k;
    } else {
      j := TryLengthsWitness(n, t, rest, s, k - 1);
    }
  }

  /** A greedy group that can succeed with some length `j <= k` does succeed. */
  lemma {:induction false} TryLengthsFinds(n: string, t: VarType, rest: seq<Token>, s: string, k: nat, j: nat)
    requires 0 < j <= k <= |s| && InLanguage(t, s[..j]) && MatchFrom(rest, s[j..]).Some?
    ensures TryLengths(n, t, rest, s, k).Some?
    decreases k
  {
    if k > j && !(InLanguage(t, s[..k]) && MatchFrom(rest, s[k..]).Some?) {
      TryLengthsFinds(n, t, rest, s, k - 1, j);
    }
  }

  /** Soundness: a successful match captures exactly the pattern's group names, every capture is
      in its type's language, and the subject is the pattern with the captures filled in
      (followed at most by the one newline that `$` admits). */
  lemma {:induction false} MatchSound(toks: seq<Token>, s: string)
    requires NamesDistinct(toks) && MatchFrom(toks, s).Some?
    ensures NameSet(toks) == MatchFrom(toks, s).value.Keys
    ensures Typed(toks, MatchFrom(toks, s).value)
    ensures s == Fill(toks, MatchFrom(toks, s).value) || s == Fill(toks, MatchFrom(toks, s).value) + "\n"
    decreases |toks|, 1
  {
    if toks == [] {
      assert NameSet(toks) == {};
    } else if toks[0].Lit? {
      MatchSoundLit(toks, s);
    } else {
      MatchSoundVar(toks, s);
    }
  }

  lemma {:induction false} MatchSoundLit(toks: seq<Token>, s: string)
    requires NamesDistinct(toks) && MatchFrom(toks, s).Some? && |toks| > 0 && toks[0].Lit?
    ensures NameSet(toks) == MatchFrom(toks, s).value.Keys
    ensures Typed(toks, MatchFrom(toks, s).value)
    ensures s == Fill(toks, MatchFrom(toks, s).value) || s == Fill(toks, MatchFrom(toks, s).value) + "\n"
    decreases |toks|, 0
  {
    var m := MatchFrom(toks, s).value;
    var tail := toks[1..];
    NameSetCons(toks);
    DistinctTail(toks);
    assert |s| > 0 && s[0] == toks[0].c && m == MatchFrom(tail, s[1..]).value;
    MatchSound(tail, s[1..]);
    var rest := Fill(tail, m);
    assert s == Fill(toks, m) || s == Fill(toks, m) + "\n" by {
      assert Fill(toks, m) == [toks[0].c] + rest;
      assert s[1..] == rest || s[1..] == rest + "\n";
      assert s == [s[0]] + s[1..];
    }
    assert Typed(toks, m) by {
      forall i | 0 <= i < |toks| && toks[i].Var? ensures toks[i].name in m && InLanguage(toks[i].ty, m[toks[i].name]) {
        assert tail[i - 1] == toks[i];
      }
    }
  }

  lemma {:induction false} MatchSoundVar(toks: seq<Token>, s: string)
    requires NamesDistinct(toks) && MatchFrom(toks, s).Some? && |toks| > 0 && toks[0].Var?
    ensures NameSet(toks) == MatchFrom(toks, s).value.Keys
    ensures Typed(toks, MatchFrom(toks, s).value)
    ensures s == Fill(toks, MatchFrom(toks, s).value) || s == Fill(toks, MatchFrom(toks, s).value) + "\n"
    decreases |toks|, 0
  {
    var m := MatchFrom(toks, s).value;
    var n, t := toks[0].name, toks[0].ty;
    NameSetCons(toks);
    DistinctTail(toks);
    var j := TryLengthsWitness(n, t, toks[1..], s, |s|);
    var m' := MatchFrom(toks[1..], s[j..]).value;
    MatchSound(toks[1..], s[j..]);
    assert m == m'[n := s[..j]];
    FillIgnoresOtherNames(toks[1..], m', n, s[..j]);
    assert s == s[..j] + s[j..];
    forall i | 0 <= i < |toks| && toks[i].Var? ensures toks[i].name in m && InLanguage(toks[i].ty, m[toks[i].name]) {
      if i > 0 {
        assert toks[1..][i - 1] == toks[i];
        assert toks[i].name in NameSet(toks[1..]);
      }
    }
  }

  /** Completeness: whenever the subject is the pattern filled with well-typed values (followed
      at most by one newline), the match succeeds. The captures it returns can differ from `m`
      only when the pattern is ambiguous; `MatchSound` says what they are in any case. */
  lemma {:induction false} MatchComplete(toks: seq<Token>, m: Params, s: string)
    requires NamesDistinct(toks) && NameSet(toks) <= m.Keys && Typed(toks, m)
    requires s == Fill(toks, m) || s == Fill(toks, m) + "\n"
    ensures MatchFrom(toks, s).Some?
    decreases |toks|
  {
    if toks != [] {
      NameSetCons(toks);
      DistinctTail(toks);
      TypedTail(toks, m);
      var rest := Fill(toks[1..], m);
      match toks[0]
      case Lit(c) =>
        assert Fill(toks, m) == [c] + rest;
        assert s[0] == c && (s[1..] == rest || s[1..] == rest + "\n");
        MatchComplete(toks[1..], m, s[1..]);
      case Var(n, t) =>
        var v := m[n];
        assert Fill(toks, m) == v + rest;
        assert InLanguage(t, v) by { assert toks[0].Var?; }
        LanguageShape(t, v);
        var j := |v|;
        assert s[..j] == v && (s[j..] == rest || s[j..] == rest + "\n");
        MatchComplete(toks[1..], m, s[j..]);
        TryLengthsFinds(n, t, toks[1..], s, |s|, j);
    }
  }

  // ---------------------------------------------------------------------------
  // Patterns without placeholders
  // ---------------------------------------------------------------------------

  /** With no placeholder anywhere in `p`, its tokens are its characters, one literal each. */
  lemma {:induction false} LiteralTokens(p: string, i: nat)
    requires i <= |p|
    requires forall k :: 0 <= k <= |p| ==> PlaceholderAt(p, k).None?
    ensures |TokenizeFrom(p, i)| == |p| - i
    ensures forall k :: 0 <= k < |p| - i ==> TokenizeFrom(p, i)[k] == Lit(p[i + k])
    decreases |p| - i
  {
    if i < |p| {
      LiteralTokens(p, i + 1);
      assert TokenizeFrom(p, i) == [Lit(p[i])] + TokenizeFrom(p, i + 1);
    }
  }

  /** A literal-only token list matches exactly its own text, or that text and one newline. */
  lemma {:induction false} LiteralMatch(toks: seq<Token>, text: string, s: string)
    requires |toks| == |text| && forall k :: 0 <= k < |toks| ==> toks[k] == Lit(text[k])
    ensures MatchFrom(toks, s) == if s == text || s == text + "\n" then Some(map[]) else None
    decreases |toks|
  {
    if toks != [] {
      LiteralMatch(toks[1..], text[1..], if |s| > 0 then s[1..] else s);
      if |s| > 0 && s[0] == text[0] {
        assert s == [s[0]] + s[1..] && text == [text[0]] + text[1..];
        assert (s[1..] == text[1..] || s[1..] == text[1..] + "\n") <==> (s == text || s == text + "\n");
      }
    }
  }

  /** For a pattern without placeholders, `match_path` gives `{}` exactly when the normalized
      request path equals the stored path (or equals it followed by one newline, which Python's
      `$` admits), and no match otherwise. */
  lemma LiteralPathMatch(pp: ParametrizedPath, request: string)
    requires forall k :: 0 <= k <= |pp.path| ==> PlaceholderAt(pp.path, k).None?
    ensures MatchPath(pp, request) ==
      Ok(if Normalize(request) == pp.path || Normalize(request) == pp.path + "\n" then Some(map[]) else None)
  {
    LiteralTokens(pp.path, 0);
    var toks := Tokenize(pp.path);
    assert NamesValid(toks) && NamesDistinct(toks);
    MatchPathOf(pp, request, toks);
    LiteralMatch(toks, pp.path, Normalize(request));
  }

  // ---------------------------------------------------------------------------
  // A single placeholder
  // ---------------------------------------------------------------------------

  /** The pattern text `/{n:type}`. */
  function OnePlaceholder(n: string, t: VarType): string {
    "/{" + n + ":" + TypeName(t) + "}"
  }

  /** A run of word characters from `i` that stops at `e` is the run WordEnd finds. */
  lemma {:induction false} WordEndAt(p: string, i: nat, e: nat)
    requires i <= e <= |p|
    requires forall k :: i <= k < e ==> IsWordChar(p[k])
    requires e < |p| ==> !IsWordChar(p[e])
    ensures WordEnd(p, i) == e
    decreases e - i
  {
    if i < e {
      WordEndAt(p, i + 1, e);
    }
  }

  /** A type name that closes the text is recognized as that type: no alternative tried before
      it fits there, since the five names start with five different letters. */
  lemma TypeAtName(p: string, j: nat, t: VarType)
    requires j <= |p| && p[j..] == TypeName(t) + "}"
    ensures TypeAt(p, j) == Some(t)
  {
    TypeFromName(p, j, Alternation, t);
  }

  lemma {:induction false} TypeFromName(p: string, j: nat, ts: seq<VarType>, t: VarType)
    requires j <= |p| && p[j..] == TypeName(t) + "}" && t in ts
    ensures TypeFrom(p, j, ts) == Some(t)
    decreases |ts|
  {
    assert HasAt(p, j, TypeName(t) + "}");
    if ts[0] != t {
      if HasAt(p, j, TypeName(ts[0]) + "}") {
        HasAtHead(p, j, TypeName(ts[0]) + "}");
        HasAtHead(p, j, TypeName(t) + "}");
        assert false;
      }
      TypeFromName(p, j, ts[1..], t);
    }
  }

  lemma HasAtHead(p: string, j: nat, w: string)
    requires HasAt(p, j, w) && |w| > 0
    ensures p[j] == w[0]
  {
    assert p[j..j + |w|][0] == p[j];
  }

  /** A name that stops at a `:` followed by a recognized type forms one placeholder. */
  lemma PlaceholderFound(p: string, i: nat, e: nat, t: VarType)
    requires i + 1 < e < |p| && p[e] == ':' && TypeAt(p, e + 1) == Some(t)
    ensures PlaceholderTo(p, i, e) == Some((p[i + 1..e], t, e + 2 + |TypeName(t)|))
  {
  }

  /** The text `/{n:type}`, with `n` a run of word characters, is a literal `/` followed by one
      group named `n` of type `type`. */
  lemma OnePlaceholderTokens(n: string, t: VarType)
    requires |n| > 0 && forall k :: 0 <= k < |n| ==> IsWordChar(n[k])
    ensures Tokenize(OnePlaceholder(n, t)) == [Lit('/'), Var(n, t)]
  {
    var p := OnePlaceholder(n, t);
    var e := 2 + |n|;
    assert p == ("/{" + n) + (":" + TypeName(t) + "}");
    assert p[2..e] == n;
    forall k | 2 <= k < e ensures IsWordChar(p[k]) {
      assert p[k] == n[k - 2];
    }
    assert p[e + 1..] == TypeName(t) + "}";
    SlashPlaceholderTokens(p, e, t);
  }

  /** A `/` and then a placeholder that closes the text tokenize to a literal and one group. */
  lemma SlashPlaceholderTokens(p: string, e: nat, t: VarType)
    requires 2 < e < |p| && p[0] == '/' && p[1] == '{' && p[e] == ':'
    requires forall k :: 2 <= k < e ==> IsWordChar(p[k])
    requires p[e + 1..] == TypeName(t) + "}"
    ensures Tokenize(p) == [Lit('/'), Var(p[2..e], t)]
  {
    WordEndAt(p, 2, e);
    assert PlaceholderAt(p, 1) == PlaceholderTo(p, 1, e);
    TypeAtName(p, e + 1, t);
    PlaceholderFound(p, 1, e, t);
    assert e + 2 + |TypeName(t)| == |p|;
    assert TokenizeFrom(p, 1) == [Var(p[2..e], t)] + TokenizeFrom(p, |p|);
    assert TokenizeFrom(p, 0) == [Lit('/')] + TokenizeFrom(p, 1);
  }

  /** A single placeholder accepts exactly its type's language and captures the raw text. For the
      stored pattern `/{n:type}` and the request `/v`: the match is `{n: v}` when `v` is a word
      of the type; `{n: w}` when `v` is such a word `w` followed by one newline (which Python's
      `$` admits); no match otherwise. A name starting with a digit makes the pattern fail to
      compile. */
  lemma PlaceholderAcceptsExactly(n: string, t: VarType, v: string)
    requires |n| > 0 && forall k :: 0 <= k < |n| ==> IsWordChar(n[k])
    ensures !IsDigit(n[0]) ==>
      (MatchPath(FromRaw(OnePlaceholder(n, t)), "/" + v) ==
       Ok(if InLanguage(t, v) then Some(map[n := v])
          else if |v| > 0 && v[|v| - 1] == '\n' && InLanguage(t, v[..|v| - 1]) then Some(map[n := v[..|v| - 1]])
          else None))
    ensures IsDigit(n[0]) ==> MatchPath(FromRaw(OnePlaceholder(n, t)), "/" + v) == Err(BadGroupName(n))
  {
    var p := OnePlaceholder(n, t);
    OnePlaceholderCompile(n, t);
    if IsDigit(n[0]) {
      MatchPathErr(FromRaw(p), "/" + v, BadGroupName(n));
    } else {
      MatchPathOf(FromRaw(p), "/" + v, [Lit('/'), Var(n, t)]);
      assert Normalize("/" + v) == "/" + v;
      OneVarMatch(n, t, v);
    }
  }

  /** The stored form of `/{n:type}` is the text itself, and it compiles to its two tokens
      unless the name starts with a digit. */
  lemma OnePlaceholderCompile(n: string, t: VarType)
    requires |n| > 0 && forall k :: 0 <= k < |n| ==> IsWordChar(n[k])
    ensures FromRaw(OnePlaceholder(n, t)).path == OnePlaceholder(n, t)
    ensures Compile(OnePlaceholder(n, t)) ==
      if IsDigit(n[0]) then Err(BadGroupName(n)) else Ok([Lit('/'), Var(n, t)])
  {
    OnePlaceholderTokens(n, t);
    CompileOneVar(OnePlaceholder(n, t), n, t);
  }

  /** A text whose tokens are `/` and one group compiles unless the group's name starts with a
      digit. */
  lemma CompileOneVar(p: string, n: string, t: VarType)
    requires |n| > 0 && Tokenize(p) == [Lit('/'), Var(n, t)]
    ensures Compile(p) == if IsDigit(n[0]) then Err(BadGroupName(n)) else Ok([Lit('/'), Var(n, t)])
  {
    var toks := [Lit('/'), Var(n, t)];
    OneVarNames(n, t);
    assert toks[1..] == [Var(n, t)];
    if IsDigit(n[0]) {
      assert CheckGroups(toks, {}) == Some(BadGroupName(n));
    } else {
      assert NamesValid(toks);
    }
  }

  /** A pattern that compiles is matched against the normalized request. */
  lemma MatchPathOf(pp: ParametrizedPath, request: string, toks: seq<Token>)
    requires Compile(pp.path) == Ok(toks)
    ensures MatchPath(pp, request) == Ok(MatchFrom(toks, Normalize(request)))
  {
  }

  /** A pattern that does not compile makes `match_path` raise its error. */
  lemma MatchPathErr(pp: ParametrizedPath, request: string, e: CompileError)
    requires Compile(pp.path) == Err(e)
    ensures MatchPath(pp, request) == Err(e)
  {
  }

  /** The token-level match of `[Lit('/'), Var(n, t)]`. */
  lemma OneVarMatch(n: string, t: VarType, v: string)
    ensures MatchFrom([Lit('/'), Var(n, t)], "/" + v) ==
      if InLanguage(t, v) then Some(map[n := v])
      else if |v| > 0 && v[|v| - 1] == '\n' && InLanguage(t, v[..|v| - 1]) then Some(map[n := v[..|v| - 1]])
      else None
  {
    if MatchFrom([Lit('/'), Var(n, t)], "/" + v).Some? {
      OneVarMatchFound(n, t, v);
    } else {
      OneVarNoMatch(n, t, v);
    }
  }

  /** No match on `[Lit('/'), Var(n, t)]` means `v` is no word of the type, with or without a
      final newline. */
  lemma OneVarNoMatch(n: string, t: VarType, v: string)
    requires MatchFrom([Lit('/'), Var(n, t)], "/" + v).None?
    ensures !InLanguage(t, v)
    ensures !(|v| > 0 && v[|v| - 1] == '\n' && InLanguage(t, v[..|v| - 1]))
  {
    if InLanguage(t, v) {
      PlaceholderAccepts(n, t, v, v);
    }
    if |v| > 0 && v[|v| - 1] == '\n' && InLanguage(t, v[..|v| - 1]) {
      assert v == v[..|v| - 1] + "\n";
      PlaceholderAccepts(n, t, v[..|v| - 1], v);
    }
  }

  /** A successful match on `[Lit('/'), Var(n, t)]` is one of the two captures. */
  lemma OneVarMatchFound(n: string, t: VarType, v: string)
    requires MatchFrom([Lit('/'), Var(n, t)], "/" + v).Some?
    ensures !InLanguage(t, v) ==> |v| > 0 && v[|v| - 1] == '\n' && InLanguage(t, v[..|v| - 1])
    ensures MatchFrom([Lit('/'), Var(n, t)], "/" + v) ==
      if InLanguage(t, v) then Some(map[n := v])
      else Some(map[n := v[..|v| - 1]])
  {
    PlaceholderCaptures(n, t, v);
    CaptureCases(n, t, v, MatchFrom([Lit('/'), Var(n, t)], "/" + v));
  }

  /** A capture `w` of `/v` that is a word of the type is `v` itself, or `v` without the one
      final newline; a word holds no newline, so the two cases are told apart by `v`. */
  lemma CaptureCases(n: string, t: VarType, v: string, r: Option<Params>)
    requires r.Some? && r.value.Keys == {n} && InLanguage(t, r.value[n])
    requires v == r.value[n] || v == r.value[n] + "\n"
    ensures !InLanguage(t, v) ==> |v| > 0 && v[|v| - 1] == '\n' && InLanguage(t, v[..|v| - 1])
    ensures r == if InLanguage(t, v) then Some(map[n := v]) else Some(map[n := v[..|v| - 1]])
  {
    var w := r.value[n];
    assert r.value == map[n := w];
    if v != w {
      assert v[..|v| - 1] == w;
      assert !InLanguage(t, v) by {
        assert v[|v| - 1] in v;
        if InLanguage(t, v) {
          LanguageShape(t, v);
        }
      }
    }
  }

  /** Every word of the type's language, alone or followed by one newline, is accepted by its
      placeholder. */
  lemma PlaceholderAccepts(n: string, t: VarType, w: string, v: string)
    requires InLanguage(t, w) && (v == w || v == w + "\n")
    ensures MatchFrom([Lit('/'), Var(n, t)], "/" + v).Some?
  {
    var toks := [Lit('/'), Var(n, t)];
    OneVarNames(n, t);
    var m := map[n := w];
    FillOneVar(n, t, m);
    assert "/" + v == Fill(toks, m) || "/" + v == Fill(toks, m) + "\n";
    MatchComplete(toks, m, "/" + v);
  }

  lemma OneVarNames(n: string, t: VarType)
    ensures NameSet([Lit('/'), Var(n, t)]) == {n}
    ensures NamesDistinct([Lit('/'), Var(n, t)])
  {
    var toks := [Lit('/'), Var(n, t)];
    NameSetCons(toks);
    NameSetCons(toks[1..]);
    assert toks[1..][1..] == [];
  }

  lemma FillOneVar(n: string, t: VarType, m: Params)
    requires n in m
    ensures NameSet([Lit('/'), Var(n, t)]) <= m.Keys
    ensures Fill([Lit('/'), Var(n, t)], m) == "/" + m[n]
  {
    var toks := [Lit('/'), Var(n, t)];
    OneVarNames(n, t);
    NameSetCons(toks[1..]);
    assert toks[1..][1..] == [];
    assert NameSet(toks[1..][1..]) == {};
    assert Fill(toks[1..][1..], m) == "";
    assert Fill(toks[1..], m) == m[n] + Fill(toks[1..][1..], m);
    assert Fill(toks, m) == ['/'] + Fill(toks[1..], m);
  }

  /** A placeholder match binds only `n`, to a word of the type that is the text after `/`, or
      that text without its final newline. */
  lemma PlaceholderCaptures(n: string, t: VarType, v: string)
    requires MatchFrom([Lit('/'), Var(n, t)], "/" + v).Some?
    ensures var m := MatchFrom([Lit('/'), Var(n, t)], "/" + v).value;
      m.Keys == {n} && InLanguage(t, m[n]) && (v == m[n] || v == m[n] + "\n")
  {
    var toks := [Lit('/'), Var(n, t)];
    OneVarNames(n, t);
    MatchSound(toks, "/" + v);
    var m := MatchFrom(toks, "/" + v).value;
    assert m.Keys == {n};
    FillOneVar(n, t, m);
    assert v == ("/" + v)[1..];
    assert ("/" + m[n] + "\n")[1..] == m[n] + "\n";
    assert InLanguage(t, m[n]) by {
      assert toks[1].Var? && toks[1].name == n && toks[1].ty == t;
    }
  }

  // ---------------------------------------------------------------------------
  // `match_path` as a whole
  // ---------------------------------------------------------------------------

  /** A successful `match_path` binds exactly the pattern's groups, each to a word of its type,
      and the normalized request is the pattern filled with those words (possibly followed by the
      one newline `$` lets through). */
  lemma MatchPathSound(pp: ParametrizedPath, request: string)
    requires MatchPath(pp, request).Ok? && MatchPath(pp, request).value.Some?
    ensures var toks := Tokenize(pp.path);
      var m := MatchPath(pp, request).value.value;
      && m.Keys == NameSet(toks) && Typed(toks, m)
      && (Normalize(request) == Fill(toks, m) || Normalize(request) == Fill(toks, m) + "\n")
  {
    var toks := Tokenize(pp.path);
    if Compile(pp.path).Err? {
      MatchPathErr(pp, request, Compile(pp.path).error);
    }
    MatchPathOf(pp, request, toks);
    MatchSound(toks, Normalize(request));
  }

  /** Conversely, a request that is the pattern filled with words of the right types matches. A
      pattern that does not compile makes every `match_path` fail. */
  lemma MatchPathComplete(pp: ParametrizedPath, request: string, m: Params)
    requires NameSet(Tokenize(pp.path)) <= m.Keys && Typed(Tokenize(pp.path), m)
    requires Normalize(request) == Fill(Tokenize(pp.path), m) || Normalize(request) == Fill(Tokenize(pp.path), m) + "\n"
    ensures Compile(pp.path).Ok? ==> MatchPath(pp, request).Ok? && MatchPath(pp, request).value.Some?
    ensures Compile(pp.path).Err? ==> MatchPath(pp, request) == Err(Compile(pp.path).error)
  {
    if Compile(pp.path).Ok? {
      MatchPathOf(pp, request, Tokenize(pp.path));
      MatchComplete(Tokenize(pp.path), m, Normalize(request));
    } else {
      MatchPathErr(pp, request, Compile(pp.path).error);
    }
  }
}
