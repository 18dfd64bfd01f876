/**
 * src/api.js: route-parameter substitution and the request configuration
 * `api` hands to the HTTP client.
 */
module Api {
  import opened Wrappers
  import opened Values
  import opened Text
  import opened Actions

  // ---------------------------------------------------------------- route tokens

  /** A character of `[_a-zA-Z]`. */
  predicate IsParamChar(c: char) {
    c == '_' || 'a' <= c <= 'z' || 'A' <= c <= 'Z'
  }

  predicate IsDigit(c: char) { '0' <= c <= '9' }

  /** The end of the longest run of parameter characters starting at `k`. */
  function RunEnd(s: string, k: nat): (j: nat)
    requires k <= |s|
    ensures k <= j <= |s|
    ensures forall i :: k <= i < j ==> IsParamChar(s[i])
    ensures j == |s| || !IsParamChar(s[j])
    decreases |s| - k
  {
    if k == |s| || !IsParamChar(s[k]) then k else RunEnd(s, k + 1)
  }

  /**
   * `:[_a-zA-Z]+\b` matches the first `k` characters of `s`: a colon, a run of
   * parameter characters, and then the end of the text or a character that is
   * not a word character (a run cut short would be followed by a parameter
   * character, and a digit is a word character too).
   */
  predicate MatchOfLength(s: string, k: nat) {
    && 2 <= k <= |s| && s[0] == ':'
    && (forall i :: 1 <= i < k ==> IsParamChar(s[i]))
    && (k == |s| || (!IsParamChar(s[k]) && !IsDigit(s[k])))
  }

  /** The length of the match of `:[_a-zA-Z]+\b` at the start of `s`, or 0 when there is none. */
  function TokenLength(s: string): (n: nat)
    ensures n == 0 || (2 <= n <= |s| && s[0] == ':')
    ensures n > 0 ==> forall i :: 1 <= i < n ==> IsParamChar(s[i])
    ensures n > 0 ==> n == |s| || (!IsParamChar(s[n]) && !IsDigit(s[n]))
  {
    if |s| == 0 || s[0] != ':' then 0
    else
      var j := RunEnd(s, 1);
      if j > 1 && (j == |s| || !IsDigit(s[j])) then j else 0
  }

  /** `route.match(/:[_a-zA-Z]+\b/g)`: the matched tokens, left to right (none for no match). */
  function Tokens(s: string): (r: seq<string>)
    ensures forall i :: 0 <= i < |r| ==> |r[i]| >= 2 && r[i][0] == ':'
    decreases |s|
  {
    if |s| == 0 then []
    else
      var n := TokenLength(s);
      if n > 0 then [s[..n]] + Tokens(s[n..]) else Tokens(s[1..])
  }

  /** Wherever the expression matches at the start, `TokenLength` finds that match. */
  lemma TokenLengthComplete(s: string, k: nat)
    requires MatchOfLength(s, k)
    ensures TokenLength(s) == k
  {
    var j := RunEnd(s, 1);
  }

  /** Every position from `i` on at which `:[_a-zA-Z]+\b` matches in `s`, left to right. */
  function MatchStarts(s: string, i: nat): (p: seq<nat>)
    requires i <= |s|
    ensures forall k :: 0 <= k < |p| ==> i <= p[k] < |s|
    decreases |s| - i
  {
    if i == |s| then []
    else if TokenLength(s[i..]) > 0 then [i] + MatchStarts(s, i + 1)
    else MatchStarts(s, i + 1)
  }

  /** Every listed position is a match position, and the list is strictly increasing. */
  lemma {:induction false} MatchStartsSound(s: string, i: nat)
    requires i <= |s|
    ensures forall k :: 0 <= k < |MatchStarts(s, i)| ==> TokenLength(s[MatchStarts(s, i)[k]..]) > 0
    ensures forall k, l :: 0 <= k < l < |MatchStarts(s, i)| ==> MatchStarts(s, i)[k] < MatchStarts(s, i)[l]
    decreases |s| - i
  {
    if i < |s| {
      MatchStartsSound(s, i + 1);
      var p, q := MatchStarts(s, i), MatchStarts(s, i + 1);
      if TokenLength(s[i..]) > 0 {
        assert p == [i] + q;
        assert forall k :: 0 < k < |p| ==> p[k] == q[k - 1];
      } else {
        assert p == q;
      }
    }
  }

  /** No match is skipped: every position from `i` on where the expression matches is listed. */
  lemma {:induction false} MatchStartsComplete(s: string, i: nat, j: nat)
    requires i <= j < |s| && TokenLength(s[j..]) > 0
    ensures j in MatchStarts(s, i)
    decreases j - i
  {
    if i < j {
      MatchStartsComplete(s, i + 1, j);
    }
  }

  /** No match starts inside another, so consecutive matches do not overlap. */
  lemma MatchesDoNotOverlap(s: string)
    ensures var p := MatchStarts(s, 0);
            forall k :: 0 <= k < |p| - 1 ==> p[k] + TokenLength(s[p[k]..]) <= p[k + 1]
  {
    var p := MatchStarts(s, 0);
    MatchStartsSound(s, 0);
    forall k | 0 <= k < |p| - 1 ensures p[k] + TokenLength(s[p[k]..]) <= p[k + 1] {
      var i := p[k + 1];
      assert s[i..][0] == s[i];
    }
  }

  /** Positions from `i` up to `m` where no match starts contribute nothing. */
  lemma {:induction false} SkipStarts(s: string, i: nat, m: nat)
    requires i <= m <= |s|
    requires forall j :: i <= j < m ==> TokenLength(s[j..]) == 0
    ensures MatchStarts(s, i) == MatchStarts(s, m)
    decreases m - i
  {
    if i < m {
      assert TokenLength(s[i..]) == 0;
      assert MatchStarts(s, i) == MatchStarts(s, i + 1);
      SkipStarts(s, i + 1, m);
    }
  }

  /** A position where no match starts: both lists go on from the next one. */
  lemma PlainTokenStep(s: string, i: nat)
    requires i < |s| && TokenLength(s[i..]) == 0
    ensures Tokens(s[i..]) == Tokens(s[i + 1..])
    ensures MatchStarts(s, i) == MatchStarts(s, i + 1)
  {
    assert s[i..][1..] == s[i + 1..];
  }

  /** A position where a match starts: both lists take it and go on after it. */
  lemma MatchTokenStep(s: string, i: nat)
    requires i < |s| && TokenLength(s[i..]) > 0
    ensures Tokens(s[i..]) == [MatchedAt(s, i)] + Tokens(s[i + TokenLength(s[i..])..])
    ensures MatchStarts(s, i) == [i] + MatchStarts(s, i + TokenLength(s[i..]))
  {
    var t := s[i..];
    var n := TokenLength(t);
    assert t[n..] == s[i + n..] && t[..n] == s[i..i + n];
    forall j | i + 1 <= j < i + n ensures TokenLength(s[j..]) == 0 {
      assert s[j..][0] == t[j - i];
    }
    SkipStarts(s, i + 1, i + n);
  }

  /** The text the expression matches at position `j` of `s` ("" where it does not match). */
  function MatchedAt(s: string, j: nat): string
    requires j <= |s|
  {
    s[j..j + TokenLength(s[j..])]
  }

  /** As many tokens in `s[i..]` as match positions from `i` on. */
  lemma {:induction false} TokenCountFrom(s: string, i: nat)
    requires i <= |s|
    ensures |Tokens(s[i..])| == |MatchStarts(s, i)|
    decreases |s| - i
  {
    if i < |s| {
      var n := TokenLength(s[i..]);
      if n == 0 {
        PlainTokenStep(s, i);
        TokenCountFrom(s, i + 1);
      } else {
        MatchTokenStep(s, i);
        TokenCountFrom(s, i + n);
      }
    }
  }

  /** At a match position, entry `k > 0` of both lists is entry `k - 1` of the lists after the match. */
  lemma MatchTokenIndex(s: string, i: nat, k: nat)
    requires i < |s| && TokenLength(s[i..]) > 0
    requires 0 < k < |MatchStarts(s, i)|
    ensures var m := i + TokenLength(s[i..]);
            && m <= |s| && k - 1 < |MatchStarts(s, m)|
            && MatchStarts(s, i)[k] == MatchStarts(s, m)[k - 1]
            && (k - 1 < |Tokens(s[m..])| ==> k < |Tokens(s[i..])| && Tokens(s[i..])[k] == Tokens(s[m..])[k - 1])
  {
    MatchTokenStep(s, i);
  }

  /** The `k`-th token of `s[i..]` is the text matched at the `k`-th match position from `i` on. */
  lemma {:induction false} TokenFrom(s: string, i: nat, k: nat)
    requires i <= |s| && k < |MatchStarts(s, i)|
    ensures k < |Tokens(s[i..])|
    ensures Tokens(s[i..])[k] == MatchedAt(s, MatchStarts(s, i)[k])
    decreases |s| - i
  {
    var n := TokenLength(s[i..]);
    if n == 0 {
      PlainTokenStep(s, i);
      TokenFrom(s, i + 1, k);
    } else if k == 0 {
      MatchTokenStep(s, i);
    } else {
      MatchTokenIndex(s, i, k);
      TokenFrom(s, i + n, k - 1);
    }
  }

  /**
   * `route.match(/:[_a-zA-Z]+\b/g)` as `Tokens` computes it: the text matched
   * at each match position of the route, in order, none skipped.
   */
  lemma TokensAreMatches(s: string)
    ensures |Tokens(s)| == |MatchStarts(s, 0)|
    ensures forall k :: 0 <= k < |Tokens(s)| ==> Tokens(s)[k] == MatchedAt(s, MatchStarts(s, 0)[k])
  {
    assert s[0..] == s;
    TokenCountFrom(s, 0);
    forall k | 0 <= k < |Tokens(s)| ensures Tokens(s)[k] == MatchedAt(s, MatchStarts(s, 0)[k]) {
      TokenFrom(s, 0, k);
    }
  }

  /** `urlParam.substring(1)`: the payload key a token names. */
  function Key(token: string): string {
    if |token| == 0 then "" else token[1..]
  }

  /** `action.payload && action.payload[key]`. */
  function ParamValue(a: Action, key: string): (v: Value)
    ensures Truthy(v) <==> Truthy(a.payload) && Truthy(Prop(a.payload, key))
  {
    if Truthy(a.payload) then Prop(a.payload, key) else a.payload
  }

  /** The key of the first token whose value is missing, if any. */
  function FirstMissing(tokens: seq<string>, a: Action): (r: Option<string>)
    ensures r.None? <==> forall i :: 0 <= i < |tokens| ==> Truthy(ParamValue(a, Key(tokens[i])))
    decreases |tokens|
  {
    if |tokens| == 0 then None
    else if !Truthy(ParamValue(a, Key(tokens[0]))) then Some(Key(tokens[0]))
    else
      var rest := FirstMissing(tokens[1..], a);
      assert forall i :: 1 <= i < |tokens| ==> tokens[i] == tokens[1..][i - 1];
      rest
  }

  // ---------------------------------------------------------------- as written

  /** `s.replace(pat, rep)` with a string pattern: only the first occurrence is replaced. */
  function ReplaceFirst(s: string, pat: string, rep: string): string
    decreases |s|
  {
    if pat <= s then rep + s[|pat|..]
    else if |s| == 0 then s
    else [s[0]] + ReplaceFirst(s[1..], pat, rep)
  }

  /**
   * The loop of `replaceUrlParams`: for each token in turn, read its value and
   * replace the first occurrence of the token's text in the url built so far.
   */
  function ReplaceEach(url: string, tokens: seq<string>, a: Action): (r: Result<string, Error>)
    ensures r.Failure? <==> FirstMissing(tokens, a).Some?
    ensures r.Failure? ==> r.error == UrlKeyMissing(FirstMissing(tokens, a).value, a.actionType)
    decreases |tokens|
  {
    if |tokens| == 0 then Success(url)
    else
      var key := Key(tokens[0]);
      var value := ParamValue(a, key);
      if !Truthy(value) then Failure(UrlKeyMissing(key, a.actionType))
      else ReplaceEach(ReplaceFirst(url, tokens[0], ToText(value)), tokens[1..], a)
  }

  /** `replaceUrlParams(route, action)` as the source writes it. */
  method ReplaceUrlParams(route: string, a: Action) returns (r: Result<string, Error>)
    ensures r == ReplaceEach(route, Tokens(route), a)
  {
    var url := route;
    var tokens := Tokens(route);
    for i := 0 to |tokens|
      invariant ReplaceEach(route, tokens, a) == ReplaceEach(url, tokens[i..], a)
    {
      assert tokens[i..][1..] == tokens[i + 1..];
      var key := Key(tokens[i]);
      var value := ParamValue(a, key);
      if !Truthy(value) {
        return Failure(UrlKeyMissing(key, a.actionType));
      }
      url := ReplaceFirst(url, tokens[i], ToText(value));
    }
    r := Success(url);
  }

  // ---------------------------------------------------------------- substitution in place

  /**
   * Each token of the route replaced, where it stands, by the text of its
   * payload value; the rest of the route copied as it is.
   */
  function Substitute(s: string, a: Action): (r: Result<string, Error>)
    decreases |s|
  {
    if |s| == 0 then Success("")
    else
      var n := TokenLength(s);
      if n > 0 then
        var key := Key(s[..n]);
        var value := ParamValue(a, key);
        if !Truthy(value) then Failure(UrlKeyMissing(key, a.actionType))
        else
          var rest :- Substitute(s[n..], a);
          Success(ToText(value) + rest)
      else
        var rest :- Substitute(s[1..], a);
        Success([s[0]] + rest)
  }

  /** Substitution throws exactly when the source's loop throws, and with the same error. */
  lemma {:induction false} SubstituteFailsLikeLoop(s: string, a: Action)
    ensures Substitute(s, a).Failure? <==> FirstMissing(Tokens(s), a).Some?
    ensures Substitute(s, a).Failure? ==>
              Substitute(s, a).error == UrlKeyMissing(FirstMissing(Tokens(s), a).value, a.actionType)
    decreases |s|
  {
    if |s| > 0 {
      var n := TokenLength(s);
      if n > 0 {
        SubstituteFailsLikeLoop(s[n..], a);
        assert Tokens(s)[1..] == Tokens(s[n..]);
      } else {
        SubstituteFailsLikeLoop(s[1..], a);
      }
    }
  }

  /**
   * No colon of `u` before position `k` is followed by a character of
   * `[_a-zA-Z]`, so no token starts there (`https://host/users` qualifies).
   */
  predicate PlainBefore(u: string, k: nat) {
    forall i :: 0 <= i < k && i + 1 < |u| && u[i] == ':' ==> !IsParamChar(u[i + 1])
  }

  /** A route in which no token starts. */
  predicate PlainRoute(s: string) {
    PlainBefore(s, |s|)
  }

  /** A route without tokens has none to list, and substitution returns it unchanged. */
  lemma {:induction false} PlainRouteUnchanged(s: string, a: Action)
    requires PlainRoute(s)
    ensures Tokens(s) == []
    ensures Substitute(s, a) == Success(s)
    ensures ReplaceEach(s, Tokens(s), a) == Success(s)
    decreases |s|
  {
    if |s| > 0 {
      assert TokenLength(s) == 0 by {
        if s[0] == ':' && |s| > 1 {
          assert !IsParamChar(s[1]);
        }
      }
      assert PlainRoute(s[1..]) by {
        forall i | 0 <= i < |s[1..]| && i + 1 < |s[1..]| && s[1..][i] == ':' ensures !IsParamChar(s[1..][i + 1]) {
          assert s[1..][i] == s[i + 1] && s[1..][i + 1] == s[i + 2];
        }
      }
      PlainRouteUnchanged(s[1..], a);
      PlainStep(s, a);
      assert [s[0]] + s[1..] == s;
    }
  }

  /** `p` put in front of a successful result. */
  function Prepend(p: string, r: Result<string, Error>): Result<string, Error> {
    if r.Success? then Success(p + r.value) else r
  }

  /** A prefix in which no token starts is copied ahead of whatever the rest becomes. */
  lemma {:induction false} SubstituteAfterPlainPrefix(p: string, t: string, a: Action)
    requires PlainBefore(p + t, |p|)
    ensures Tokens(p + t) == Tokens(t)
    ensures Substitute(p + t, a) == Prepend(p, Substitute(t, a))
    decreases |p|
  {
    if |p| == 0 {
      assert p + t == t;
      if Substitute(t, a).Success? {
        assert p + Substitute(t, a).value == Substitute(t, a).value;
      }
    } else {
      var s := p + t;
      PlainPrefixStep(p, t);
      SubstituteAfterPlainPrefix(p[1..], t, a);
      PlainStep(s, a);
      PrependTwice([p[0]], p[1..], Substitute(t, a));
      assert [p[0]] + p[1..] == p;
    }
  }

  /** No token starts at the head of a plain prefix, and the rest of the prefix stays plain. */
  lemma PlainPrefixStep(p: string, t: string)
    requires |p| > 0 && PlainBefore(p + t, |p|)
    ensures TokenLength(p + t) == 0 && (p + t)[0] == p[0] && (p + t)[1..] == p[1..] + t
    ensures PlainBefore(p[1..] + t, |p[1..]|)
  {
    var s := p + t;
    if s[0] == ':' && |s| > 1 {
      assert !IsParamChar(s[1]);
    }
    assert s[1..] == p[1..] + t;
    forall i | 0 <= i < |p[1..]| && i + 1 < |s[1..]| && s[1..][i] == ':' ensures !IsParamChar(s[1..][i + 1]) {
      assert s[1..][i] == s[i + 1] && s[1..][i + 1] == s[i + 2];
    }
  }

  /** A route at whose start no token matches copies its first character. */
  lemma PlainStep(s: string, a: Action)
    requires |s| > 0 && TokenLength(s) == 0
    ensures Tokens(s) == Tokens(s[1..])
    ensures Substitute(s, a) == Prepend([s[0]], Substitute(s[1..], a))
  {
  }

  /** The token `:name` of a route `base/:name`, when `name` is a non-empty run of `[_a-zA-Z]`. */
  lemma NamedTokenLength(name: string)
    requires |name| > 0 && forall i :: 0 <= i < |name| ==> IsParamChar(name[i])
    ensures TokenLength(":" + name) == |name| + 1
  {
    var s := ":" + name;
    assert forall i :: 1 <= i < |s| ==> IsParamChar(s[i]) by {
      forall i | 1 <= i < |s| ensures IsParamChar(s[i]) {
        assert s[i] == name[i - 1];
      }
    }
    RunEndOfRun(s, 1);
  }

  lemma {:induction false} RunEndOfRun(s: string, k: nat)
    requires k <= |s|
    requires forall i :: k <= i < |s| ==> IsParamChar(s[i])
    ensures RunEnd(s, k) == |s|
    decreases |s| - k
  {
    if k < |s| {
      RunEndOfRun(s, k + 1);
    }
  }

  /** `base/` is a plain prefix of `base/:name`. */
  lemma IdRouteParts(base: string, name: string)
    requires PlainRoute(base)
    ensures base + "/:" + name == (base + "/") + (":" + name)
    ensures PlainBefore(base + "/:" + name, |base| + 1)
  {
    var p := base + "/";
    var u := p + (":" + name);
    assert base + "/:" + name == u;
    forall i | 0 <= i < |p| && i + 1 < |u| && u[i] == ':' ensures !IsParamChar(u[i + 1]) {
      if i + 1 < |base| {
        assert u[i] == base[i] && u[i + 1] == base[i + 1];
      } else {
        assert u[i] == base[i] && u[i + 1] == '/';
      }
    }
  }

  /** `:name` on its own is one token naming `name`. */
  lemma NamedToken(name: string)
    requires |name| > 0 && forall i :: 0 <= i < |name| ==> IsParamChar(name[i])
    ensures TokenLength(":" + name) == |name| + 1
    ensures Tokens(":" + name) == [":" + name] && Key(":" + name) == name
  {
    var token := ":" + name;
    NamedTokenLength(name);
    assert token[..|token|] == token && token[|token|..] == "";
    assert token[1..] == name;
    assert Tokens(token) == [token] + Tokens("");
  }

  /**
   * The route `computeApiConfig` gives findOne, update and delete,
   * `base/:name`, has the one token `:name`, and substitution turns it into
   * `base/` followed by the text of `payload[name]`, throwing when that
   * value is falsy.
   */
  lemma SubstituteIdRoute(base: string, name: string, a: Action)
    requires PlainRoute(base)
    requires |name| > 0 && forall i :: 0 <= i < |name| ==> IsParamChar(name[i])
    ensures Tokens(base + "/:" + name) == [":" + name]
    ensures Substitute(base + "/:" + name, a) ==
              if Truthy(ParamValue(a, name)) then Success(base + "/" + ToText(ParamValue(a, name)))
              else Failure(UrlKeyMissing(name, a.actionType))
  {
    var token := ":" + name;
    var p := base + "/";
    IdRouteParts(base, name);
    NamedToken(name);
    SubstituteAfterPlainPrefix(p, token, a);
    SubstituteTokenStep(token, a);
    assert token[|token|..] == "" && token[..|token|] == token;
    var text := ToText(ParamValue(a, name));
    if Truthy(ParamValue(a, name)) {
      assert Substitute(token, a) == Prepend(text, Success(""));
      PrependTwice(p, text, Success(""));
      assert (p + text) + "" == base + "/" + text;
    }
  }

  /**
   * The source's loop on `base/:name` replaces the one token where it
   * stands, whatever the value's text holds, and agrees with substitution.
   */
  lemma ReplaceEachIdRoute(base: string, name: string, a: Action)
    requires PlainRoute(base)
    requires |name| > 0 && forall i :: 0 <= i < |name| ==> IsParamChar(name[i])
    ensures ReplaceEach(base + "/:" + name, Tokens(base + "/:" + name), a) ==
              if Truthy(ParamValue(a, name)) then Success(base + "/" + ToText(ParamValue(a, name)))
              else Failure(UrlKeyMissing(name, a.actionType))
    ensures ReplaceEach(base + "/:" + name, Tokens(base + "/:" + name), a) == Substitute(base + "/:" + name, a)
  {
    var token := ":" + name;
    var p := base + "/";
    IdRouteParts(base, name);
    NamedToken(name);
    SubstituteIdRoute(base, name, a);
    ReplaceEachStep(p + token, token, [], a);
    assert [token] + [] == [token];
    if Truthy(ParamValue(a, name)) {
      var text := ToText(ParamValue(a, name));
      ReplaceFirstAtToken(p, token, |token|, text);
      assert (p + text) + token[|token|..] == base + "/" + text;
    }
  }

  // ---------------------------------------------------------------- loop and substitution agree

  /**
   * Every colon of `u` before position `k` is inert: it ends `u`, or the
   * character after it neither continues a parameter name nor is a colon.
   */
  predicate InertBefore(u: string, k: nat) {
    forall i :: 0 <= i < k && i < |u| && u[i] == ':' ==>
      i + 1 == |u| || (!IsParamChar(u[i + 1]) && u[i + 1] != ':')
  }

  /** Every colon of the route either starts a token or is inert. */
  predicate ColonsAreTokens(s: string) {
    forall i :: 0 <= i < |s| && s[i] == ':' && TokenLength(s[i..]) == 0 ==>
      i + 1 == |s| || (!IsParamChar(s[i + 1]) && s[i + 1] != ':')
  }

  /** The text of every present value the tokens name is free of colons. */
  predicate ValuesColonFree(tokens: seq<string>, a: Action) {
    forall k :: 0 <= k < |tokens| && Truthy(ParamValue(a, Key(tokens[k]))) ==>
      ':' !in ToText(ParamValue(a, Key(tokens[k])))
  }

  lemma ColonsAreTokensTail(s: string, m: nat)
    requires m <= |s| && ColonsAreTokens(s)
    ensures ColonsAreTokens(s[m..])
  {
    forall i | 0 <= i < |s[m..]| && s[m..][i] == ':' && TokenLength(s[m..][i..]) == 0
      ensures i + 1 == |s[m..]| || (!IsParamChar(s[m..][i + 1]) && s[m..][i + 1] != ':')
    {
      assert s[m..][i..] == s[m + i..] && s[m..][i] == s[m + i];
      if i + 1 < |s[m..]| {
        assert s[m..][i + 1] == s[m + i + 1];
      }
    }
  }

  /** Copying a character at which no token starts keeps the colons before the rest inert. */
  lemma InertAfterPlain(d: string, r: string)
    requires |r| > 0 && TokenLength(r) == 0
    requires InertBefore(d + r, |d|) && ColonsAreTokens(r)
    ensures InertBefore(d + r, |d| + 1)
  {
    var u := d + r;
    if r[0] == ':' {
      assert r[0..] == r;
      assert u[|d|] == r[0];
      if |r| > 1 {
        assert u[|d| + 1] == r[1];
      }
    }
  }

  /** Putting a colon-free value in place of the token that starts `r` keeps the colons before the rest inert. */
  lemma InertAfterToken(d: string, r: string, text: string, n: nat)
    requires 0 < n <= |r| && r[0] == ':' && InertBefore(d + r, |d|)
    requires ':' !in text
    ensures InertBefore((d + text) + r[n..], |d| + |text|)
  {
    var u, v := d + r, (d + text) + r[n..];
    forall i | 0 <= i < |d| + |text| && i < |v| && v[i] == ':'
      ensures i + 1 == |v| || (!IsParamChar(v[i + 1]) && v[i + 1] != ':')
    {
      if i < |d| {
        assert v[i] == d[i] == u[i];
        if i + 1 < |d| {
          assert v[i + 1] == d[i + 1] == u[i + 1];
        } else {
          assert u[i + 1] == r[0];
        }
      }
    }
  }

  /**
   * With the route's text before `r` already substituted into `d` (no colon
   * of which can start a token), the loop over the tokens of `r` ends where
   * substitution in place of `r`, after `d`, does.
   */
  lemma {:induction false} ReplaceEachAfterDone(d: string, r: string, a: Action)
    requires InertBefore(d + r, |d|) && ColonsAreTokens(r) && ValuesColonFree(Tokens(r), a)
    ensures ReplaceEach(d + r, Tokens(r), a) == Prepend(d, Substitute(r, a))
    decreases |r|
  {
    if |r| == 0 {
      assert d + r == d && d + "" == d;
    } else {
      var n := TokenLength(r);
      if n == 0 {
        PlainStep(r, a);
        InertAfterPlain(d, r);
        ColonsAreTokensTail(r, 1);
        MoveHead(d, r);
        ReplaceEachAfterDone(d + [r[0]], r[1..], a);
        PlainCase(d, r, a);
      } else {
        var text := ToText(ParamValue(a, Key(r[..n])));
        TokenTail(r, a);
        if Truthy(ParamValue(a, Key(r[..n]))) {
          InertAfterToken(d, r, text, n);
          ColonsAreTokensTail(r, n);
          ReplaceEachAfterDone(d + text, r[n..], a);
        }
        TokenCase(d, r, a);
      }
    }
  }

  lemma MoveHead(d: string, r: string)
    requires |r| > 0
    ensures (d + [r[0]]) + r[1..] == d + r
  {
    assert r == [r[0]] + r[1..];
  }

  /** The loop and substitution, one character at which no token starts further on. */
  lemma PlainCase(d: string, r: string, a: Action)
    requires |r| > 0 && TokenLength(r) == 0
    requires ReplaceEach((d + [r[0]]) + r[1..], Tokens(r[1..]), a) == Prepend(d + [r[0]], Substitute(r[1..], a))
    ensures ReplaceEach(d + r, Tokens(r), a) == Prepend(d, Substitute(r, a))
  {
    PlainStep(r, a);
    var url := (d + [r[0]]) + r[1..];
    MoveHead(d, r);
    assert ReplaceEach(d + r, Tokens(r), a) == ReplaceEach(url, Tokens(r[1..]), a);
    var rest := Substitute(r[1..], a);
    assert Substitute(r, a) == Prepend([r[0]], rest);
    PrependTwice(d, [r[0]], rest);
  }

  /** The tokens of `r` after its first, and the colon-free text of the first one's value. */
  lemma TokenTail(r: string, a: Action)
    requires |r| > 0 && TokenLength(r) > 0 && ValuesColonFree(Tokens(r), a)
    ensures var n := TokenLength(r);
            && Tokens(r) == [r[..n]] + Tokens(r[n..])
            && ValuesColonFree(Tokens(r[n..]), a)
            && (Truthy(ParamValue(a, Key(r[..n]))) ==> ':' !in ToText(ParamValue(a, Key(r[..n]))))
  {
    var n := TokenLength(r);
    TokensStep(r);
    ValuesColonFreeTail(r[..n], Tokens(r[n..]), a);
  }

  /** A token at the start of `r` is the first of its tokens. */
  lemma TokensStep(r: string)
    requires |r| > 0 && TokenLength(r) > 0
    ensures Tokens(r) == [r[..TokenLength(r)]] + Tokens(r[TokenLength(r)..])
  {
  }

  lemma ValuesColonFreeTail(token: string, rest: seq<string>, a: Action)
    requires ValuesColonFree([token] + rest, a)
    ensures ValuesColonFree(rest, a)
    ensures Truthy(ParamValue(a, Key(token))) ==> ':' !in ToText(ParamValue(a, Key(token)))
  {
    assert ([token] + rest)[0] == token;
    forall k | 0 <= k < |rest| ensures rest[k] == ([token] + rest)[k + 1] {
    }
  }

  /** Substitution in place, one token further on. */
  lemma SubstituteTokenStep(r: string, a: Action)
    requires |r| > 0 && TokenLength(r) > 0
    ensures var n := TokenLength(r);
            var value := ParamValue(a, Key(r[..n]));
            Substitute(r, a) == if Truthy(value) then Prepend(ToText(value), Substitute(r[n..], a))
                                else Failure(UrlKeyMissing(Key(r[..n]), a.actionType))
  {
  }

  /** The loop, one token further on. */
  lemma ReplaceEachStep(url: string, token: string, rest: seq<string>, a: Action)
    ensures var value := ParamValue(a, Key(token));
            ReplaceEach(url, [token] + rest, a) ==
              if Truthy(value) then ReplaceEach(ReplaceFirst(url, token, ToText(value)), rest, a)
              else Failure(UrlKeyMissing(Key(token), a.actionType))
  {
    assert ([token] + rest)[0] == token && ([token] + rest)[1..] == rest;
  }

  /** The first occurrence of the token that starts `r` is that one, not one in the inert text before it. */
  lemma ReplaceFirstAtToken(d: string, r: string, n: nat, text: string)
    requires 2 <= n <= |r| && r[0] == ':' && IsParamChar(r[1]) && PlainBefore(d + r, |d|)
    ensures ReplaceFirst(d + r, r[..n], text) == (d + text) + r[n..]
  {
    var token := r[..n];
    forall i | 0 <= i < |d| ensures !(token <= (d + r)[i..]) {
      assert (d + r)[i..][0] == (d + r)[i];
      if i + 1 < |d + r| {
        assert (d + r)[i..][1] == (d + r)[i + 1];
      }
    }
    ReplaceFirstSkips(d, r, token, text);
    assert token <= r;
    assert d + (text + r[n..]) == (d + text) + r[n..];
  }

  lemma PrependTwice(p: string, q: string, r: Result<string, Error>)
    ensures Prepend(p, Prepend(q, r)) == Prepend(p + q, r)
  {
    if r.Success? {
      assert (p + q) + r.value == p + (q + r.value);
    }
  }

  /** The loop and substitution, one token further on: both put its value where it stands. */
  lemma TokenCase(d: string, r: string, a: Action)
    requires |r| > 0 && TokenLength(r) > 0 && InertBefore(d + r, |d|)
    requires var n := TokenLength(r);
             && Tokens(r) == [r[..n]] + Tokens(r[n..])
             && (Truthy(ParamValue(a, Key(r[..n]))) ==>
                   var text := ToText(ParamValue(a, Key(r[..n])));
                   ReplaceEach((d + text) + r[n..], Tokens(r[n..]), a) == Prepend(d + text, Substitute(r[n..], a)))
    ensures ReplaceEach(d + r, Tokens(r), a) == Prepend(d, Substitute(r, a))
  {
    var n := TokenLength(r);
    var token := r[..n];
    var value := ParamValue(a, Key(token));
    SubstituteTokenStep(r, a);
    ReplaceEachStep(d + r, token, Tokens(r[n..]), a);
    if Truthy(value) {
      var text := ToText(value);
      ReplaceFirstAtToken(d, r, n, text);
      var url := ReplaceFirst(d + r, token, text);
      assert url == (d + text) + r[n..];
      assert ReplaceEach(d + r, Tokens(r), a) == ReplaceEach(url, Tokens(r[n..]), a);
      var rest := Substitute(r[n..], a);
      assert ReplaceEach(url, Tokens(r[n..]), a) == Prepend(d + text, rest);
      assert Substitute(r, a) == Prepend(text, rest);
      PrependTwice(d, text, rest);
    }
  }

  /**
   * When every colon of the route starts a token or is inert and no value
   * put in holds a colon, the source's loop and substitution in place build
   * the same url, and fail alike.
   */
  lemma ReplaceEachMatchesSubstitute(route: string, a: Action)
    requires ColonsAreTokens(route) && ValuesColonFree(Tokens(route), a)
    ensures ReplaceEach(route, Tokens(route), a) == Substitute(route, a)
  {
    assert InertBefore("" + route, 0);
    assert "" + route == route;
    ReplaceEachAfterDone("", route, a);
    if Substitute(route, a).Success? {
      assert "" + Substitute(route, a).value == Substitute(route, a).value;
    }
  }

  /** The payload of the example below: `{a: "urn:b", b: "42"}`. */
  function ColonPayload(): Action {
    Action("CATS_FINDONE_REQUEST", Obj(map[Str("a") := Str("urn:b"), Str("b") := Str("42")]), Undefined)
  }

  lemma TokensOfTwoParams()
    ensures Tokens("/:a/:b") == [":a", ":b"]
  {
    assert "/:a/:b"[1..] == ":a/:b" && ":a/:b"[..2] == ":a" && ":a/:b"[2..] == "/:b";
    assert "/:b"[1..] == ":b" && ":b"[..2] == ":b" && ":b"[2..] == "";
    assert TokenLength("/:a/:b") == 0;
    assert TokenLength(":a/:b") == 2;
    assert TokenLength("/:b") == 0;
    assert TokenLength(":b") == 2;
    assert Tokens(":b") == [":b"];
    assert Tokens(":a/:b") == [":a", ":b"];
  }

  /**
   * The loop replaces the first occurrence of each token's TEXT in the url it
   * has built so far, so a value that itself contains a later token's text
   * receives that token's value in its place.
   */
  lemma ColonInValueMisplaced()
    ensures ReplaceEach("/:a/:b", Tokens("/:a/:b"), ColonPayload()) == Success("/urn42/:b")
  {
    var a := ColonPayload();
    TokensOfTwoParams();
    ParamValuesOfColonPayload();
    FirstReplacement();
    SecondReplacement();
    assert ReplaceEach("/urn42/:b", [], a) == Success("/urn42/:b");
    assert ReplaceEach("/urn:b/:b", [":b"], a) == ReplaceEach("/urn42/:b", [], a);
    assert [":a", ":b"][1..] == [":b"];
    assert ReplaceEach("/:a/:b", [":a", ":b"], a) == ReplaceEach("/urn:b/:b", [":b"], a);
  }

  lemma ParamValuesOfColonPayload()
    ensures Key(":a") == "a" && Key(":b") == "b"
    ensures ParamValue(ColonPayload(), "a") == Str("urn:b") && ParamValue(ColonPayload(), "b") == Str("42")
    ensures ToText(Str("urn:b")) == "urn:b" && ToText(Str("42")) == "42"
  {
    assert ":a"[1..] == "a" && ":b"[1..] == "b";
  }

  lemma FirstReplacement()
    ensures ReplaceFirst("/:a/:b", ":a", "urn:b") == "/urn:b/:b"
  {
    assert !(":a" <= "/:a/:b");
    assert "/:a/:b"[1..] == ":a/:b";
    assert ":a" <= ":a/:b" && ":a/:b"[2..] == "/:b";
    assert ReplaceFirst(":a/:b", ":a", "urn:b") == "urn:b" + "/:b";
    assert "urn:b" + "/:b" == "urn:b/:b";
    assert ['/'] + "urn:b/:b" == "/urn:b/:b";
  }

  lemma SecondReplacement()
    ensures ReplaceFirst("/urn:b/:b", ":b", "42") == "/urn42/:b"
  {
    var s := "/urn" + ":b/:b";
    forall i | 0 <= i < |"/urn"| ensures !(":b" <= s[i..]) {
      assert s[i..][0] == "/urn"[i] != ':';
    }
    ReplaceFirstSkips("/urn", ":b/:b", ":b", "42");
    assert "/urn" + ":b/:b" == "/urn:b/:b";
    assert ReplaceFirst(":b/:b", ":b", "42") == "42" + "/:b";
    assert "/urn" + ("42" + "/:b") == "/urn42/:b";
  }

  /** A prefix in which the pattern does not start is copied ahead of the replacement. */
  lemma {:induction false} ReplaceFirstSkips(p: string, t: string, pat: string, rep: string)
    requires forall i :: 0 <= i < |p| ==> !(pat <= (p + t)[i..])
    ensures ReplaceFirst(p + t, pat, rep) == p + ReplaceFirst(t, pat, rep)
    decreases |p|
  {
    if |p| == 0 {
      assert p + t == t;
    } else {
      var s := p + t;
      assert s[0..] == s;
      assert s[1..] == p[1..] + t;
      forall i | 0 <= i < |p[1..]| ensures !(pat <= (p[1..] + t)[i..]) {
        assert (p[1..] + t)[i..] == s[i + 1..];
      }
      ReplaceFirstSkips(p[1..], t, pat, rep);
      assert [p[0]] + (p[1..] + ReplaceFirst(t, pat, rep)) == p + ReplaceFirst(t, pat, rep);
    }
  }

  /** Substituting in place puts each value where its own token stood. */
  lemma ColonInValueKept()
    ensures Substitute("/:a/:b", ColonPayload()) == Success("/urn:b/42")
  {
    var a := ColonPayload();
    ParamValuesOfColonPayload();
    assert "/:a/:b"[1..] == ":a/:b" && ":a/:b"[..2] == ":a" && ":a/:b"[2..] == "/:b";
    assert "/:b"[1..] == ":b" && ":b"[..2] == ":b" && ":b"[2..] == "";
    assert TokenLength("/:a/:b") == 0 && TokenLength(":a/:b") == 2;
    assert TokenLength("/:b") == 0 && TokenLength(":b") == 2;
    assert Substitute("", a) == Success("");
    assert "42" + "" == "42";
    assert Substitute(":b", a) == Success("42");
    assert ['/'] + "42" == "/42";
    assert Substitute("/:b", a) == Success("/42");
    assert "urn:b" + "/42" == "urn:b/42";
    assert Substitute(":a/:b", a) == Success("urn:b/42");
    assert ['/'] + "urn:b/42" == "/urn:b/42";
  }

  // ---------------------------------------------------------------- api

  /** The `{method, route}` a request is configured with. */
  datatype ApiConfig = ApiConfig(httpMethod: Option<string>, route: string)

  /** The configuration `api` hands to the HTTP client. */
  datatype HttpRequest = HttpRequest(httpMethod: string, url: string, data: Option<Value>, params: Option<Value>)

  const BodyMethods: seq<string> := ["post", "put", "patch"]

  /**
   * `api(requestConfig, action)` up to the HTTP call: the url first, then the
   * method check; the payload travels as the body for post/put/patch and as
   * the query for get, whatever the case of the method.
   */
  function ApiRequest(config: ApiConfig, a: Action): (r: Result<HttpRequest, Error>)
    ensures Substitute(config.route, a).Failure? ==> r == Failure(Substitute(config.route, a).error)
    ensures Substitute(config.route, a).Success? ==>
              (r.Success? <==> config.httpMethod.Some? && config.httpMethod.value != "")
    ensures Substitute(config.route, a).Success? && r.Failure? ==> r.error == MethodMissing
    ensures r.Success? ==>
              && r.value.url == Substitute(config.route, a).value
              && r.value.httpMethod == config.httpMethod.value
              && (r.value.data.Some? <==> Lower(config.httpMethod.value) in BodyMethods)
              && (r.value.params.Some? <==> Lower(config.httpMethod.value) == "get")
              && (r.value.data.Some? ==> r.value.data.value == a.payload)
              && (r.value.params.Some? ==> r.value.params.value == a.payload)
  {
    var url :- Substitute(config.route, a);
    if config.httpMethod.None? || config.httpMethod.value == "" then Failure(MethodMissing)
    else
      var lowered := Lower(config.httpMethod.value);
      Success(HttpRequest(config.httpMethod.value, url,
                          if lowered in BodyMethods then Some(a.payload) else None,
                          if lowered == "get" then Some(a.payload) else None))
  }

  /**
   * `api` as written builds the url with the first-occurrence loop: it throws
   * exactly when `ApiRequest` does, with the same error, and wherever the
   * loop and substitution in place agree it builds the same request.
   */
  lemma ApiRequestAgreesWithLoop(config: ApiConfig, a: Action)
    ensures var loop := ReplaceEach(config.route, Tokens(config.route), a);
            && (ApiRequest(config, a).Failure? <==>
                  loop.Failure? || config.httpMethod.None? || config.httpMethod.value == "")
            && (loop.Failure? ==> ApiRequest(config, a) == Failure(loop.error))
            && (loop.Success? && ApiRequest(config, a).Failure? ==> ApiRequest(config, a).error == MethodMissing)
    ensures ColonsAreTokens(config.route) && ValuesColonFree(Tokens(config.route), a) && ApiRequest(config, a).Success? ==>
              ApiRequest(config, a).value.url == ReplaceEach(config.route, Tokens(config.route), a).value
  {
    SubstituteFailsLikeLoop(config.route, a);
    if ColonsAreTokens(config.route) && ValuesColonFree(Tokens(config.route), a) {
      ReplaceEachMatchesSubstitute(config.route, a);
    }
  }
}
