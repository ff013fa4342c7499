/** Admission of a request: the bearer token of its header and the scopes of
    its token (internal/bff/auth.go, internal/apim/introspect.go). */
module Auth {
  import opened RecencyList
  import opened Strings

  /** ASCII white space. */
  predicate IsSpace(c: char) {
    c == ' ' || '\t' <= c <= '\r'
  }

  predicate AllSpace(s: string) {
    forall i :: 0 <= i < |s| ==> IsSpace(s[i])
  }

  /** Not empty, and no space at either end. */
  predicate IsTrimmed(s: string) {
    s != [] && !IsSpace(s[0]) && !IsSpace(s[|s| - 1])
  }

  /** `strings.TrimSpace`. */
  function TrimSpace(s: string): string
    decreases |s|
  {
    if s == [] then s
    else if IsSpace(s[0]) then TrimSpace(s[1..])
    else if IsSpace(s[|s| - 1]) then TrimSpace(s[..|s| - 1])
    else s
  }

  // ------------------------------------------------------------------ tokens

  datatype Bearer = Malformed | Empty | Bearer(token: string)

  const PREFIX := "Bearer "

  function ParseBearer(header: string): Bearer {
    if !HasPrefix(header, PREFIX) then Malformed
    else
      var token := TrimSpace(header[|PREFIX|..]);
      if token == "" then Empty else Bearer(token)
  }

  lemma {:induction false} TrimSpaceExact(s: string) returns (left: string, right: string)
    ensures s == left + TrimSpace(s) + right && AllSpace(left) && AllSpace(right)
    decreases |s|
  {
    left, right := [], [];
    if s != [] && IsSpace(s[0]) {
      var rest := s[1..];
      var l, r := TrimSpaceExact(rest);
      left, right := [s[0]] + l, r;
      assert s == [s[0]] + rest;
    } else if s != [] && IsSpace(s[|s| - 1]) {
      var init := s[..|s| - 1];
      var l, r := TrimSpaceExact(init);
      left, right := l, r + [s[|s| - 1]];
      assert s == init + [s[|s| - 1]];
    }
  }

  lemma {:induction false} TrimSpaceTrims(s: string)
    ensures TrimSpace(s) == [] || IsTrimmed(TrimSpace(s))
    decreases |s|
  {
    if s != [] && IsSpace(s[0]) {
      TrimSpaceTrims(s[1..]);
    } else if s != [] && IsSpace(s[|s| - 1]) {
      TrimSpaceTrims(s[..|s| - 1]);
    }
  }

  lemma {:induction false} TrimSpaceOf(left: string, core: string, right: string)
    requires AllSpace(left) && AllSpace(right) && (core == [] || IsTrimmed(core))
    ensures TrimSpace(left + core + right) == core
    decreases |left| + |right|
  {
    var s := left + core + right;
    if left != [] {
      assert s[1..] == left[1..] + core + right;
      TrimSpaceOf(left[1..], core, right);
    } else if right != [] {
      var init := right[..|right| - 1];
      assert s[..|s| - 1] == left + core + init;
      TrimSpaceOf(left, core, init);
      if core == [] {
        assert s == right;
        TrimAllSpace(right);
      }
    }
  }

  lemma {:induction false} TrimAllSpace(s: string)
    requires AllSpace(s)
    ensures TrimSpace(s) == []
  {
    if s == [] {
    } else {
      TrimAllSpace(s[1..]);
    }
  }

  lemma {:induction false} ParsedIsTrimmed(header: string)
    ensures ParseBearer(header).Bearer? ==> IsTrimmed(ParseBearer(header).token)
  {
    if HasPrefix(header, PREFIX) {
      TrimSpaceTrims(header[|PREFIX|..]);
    }
  }

  /** A header carries a token exactly when it is the prefix, spaces, the
      token, spaces. */
  lemma {:induction false} ParseBearerExact(header: string, token: string)
    ensures ParseBearer(header) == Bearer(token)
            <==> IsTrimmed(token) && exists left, right ::
                   AllSpace(left) && AllSpace(right) && header == "Bearer " + (left + token + right)
    ensures forall c :: IsSpace(c) <==> c as int in {9, 10, 11, 12, 13, 32}
  {
    if ParseBearer(header) == Bearer(token) {
      var left, right := TrimSpaceExact(header[|PREFIX|..]);
      TrimSpaceTrims(header[|PREFIX|..]);
      assert header == PREFIX + (left + token + right);
    }
    if IsTrimmed(token) {
      forall left, right | AllSpace(left) && AllSpace(right) && header == PREFIX + (left + token + right)
        ensures ParseBearer(header) == Bearer(token)
      {
        TrimSpaceOf(left, token, right);
        assert header[|PREFIX|..] == left + token + right;
      }
    }
  }

  // ------------------------------------------------------------------ scopes

  function WordLength(s: string): (n: nat)
    ensures n <= |s| && forall i :: 0 <= i < n ==> !IsSpace(s[i])
    ensures n < |s| ==> IsSpace(s[n])
  {
    if s == [] || IsSpace(s[0]) then 0 else 1 + WordLength(s[1..])
  }

  /** `strings.Fields`. */
  function Fields(s: string): seq<string>
    decreases |s|
  {
    if s == [] then []
    else if IsSpace(s[0]) then Fields(s[1..])
    else [s[..WordLength(s)]] + Fields(s[WordLength(s)..])
  }

  /** `word` stands in `s` between spaces or ends. */
  ghost predicate IsWordAt(s: string, word: string, i: nat) {
    && word != [] && i + |word| <= |s| && s[i..i + |word|] == word
    && (forall k :: 0 <= k < |word| ==> !IsSpace(word[k]))
    && (i == 0 || IsSpace(s[i - 1])) && (i + |word| == |s| || IsSpace(s[i + |word|]))
  }

  /** The fields are the maximal runs without white space. */
  lemma {:induction false} FieldsExact(s: string, word: string)
    ensures word in Fields(s) <==> exists i: nat :: IsWordAt(s, word, i)
    decreases |s|
  {
    if s == [] {
    } else {
      var n := if IsSpace(s[0]) then 1 else WordLength(s);
      FieldsExact(s[n..], word);
      if i: nat :| IsWordAt(s[n..], word, i) {
        ShiftWord(s, n, word, i);
      }
      if i: nat :| IsWordAt(s, word, i) {
        if i >= n {
          UnshiftWord(s, n, word, i);
        } else {
          FirstWord(s, word, i);
        }
      }
      if !IsSpace(s[0]) {
        assert IsWordAt(s, s[..n], 0);
      }
    }
  }

  lemma {:induction false} ShiftWord(s: string, n: nat, word: string, i: nat)
    requires s != [] && n == (if IsSpace(s[0]) then 1 else WordLength(s)) && IsWordAt(s[n..], word, i)
    ensures IsWordAt(s, word, n + i)
  {
    assert s[n..][i..i + |word|] == s[n + i..n + i + |word|];
    assert !IsSpace(word[0]) && s[n + i] == word[0];
  }

  lemma {:induction false} UnshiftWord(s: string, n: nat, word: string, i: nat)
    requires n <= i && n <= |s| && IsWordAt(s, word, i)
    ensures IsWordAt(s[n..], word, i - n)
  {
    assert s[n..][i - n..i - n + |word|] == s[i..i + |word|];
  }

  /** A word that begins inside the first field is the first field. */
  lemma {:induction false} FirstWord(s: string, word: string, i: nat)
    requires s != [] && IsWordAt(s, word, i) && i < if IsSpace(s[0]) then 1 else WordLength(s)
    ensures !IsSpace(s[0]) && i == 0 && word == s[..WordLength(s)]
  {
    assert s[i] == word[0];
    assert forall k :: 0 <= k < |word| ==> s[i + k] == word[k];
  }

  ghost predicate HasScope(info: TokenInfo, want: seq<string>) {
    exists w :: w in want && w in Fields(info.scope)
  }

  const REQUIRED_SCOPES := ["apim:admin", "apim:admin_discovery_view"]

  /** The scopes asked for, spelled out. */
  ghost predicate MayAdminister(info: TokenInfo) {
    exists i: nat :: IsWordAt(info.scope, "apim:admin", i) || IsWordAt(info.scope, "apim:admin_discovery_view", i)
  }

  lemma {:induction false} RequiredScopes(info: TokenInfo)
    ensures HasScope(info, REQUIRED_SCOPES) <==> MayAdminister(info)
  {
    FieldsExact(info.scope, "apim:admin");
    FieldsExact(info.scope, "apim:admin_discovery_view");
    assert forall w :: w in REQUIRED_SCOPES <==> w == "apim:admin" || w == "apim:admin_discovery_view";
  }

  /** Whether the token was granted any of the wanted scopes. */
  method HasAnyScope(info: TokenInfo, want: seq<string>) returns (granted: bool)
    ensures granted <==> exists w, i: nat :: w in want && IsWordAt(info.scope, w, i)
    ensures granted <==> HasScope(info, want)
  {
    forall w ensures w in Fields(info.scope) <==> exists i: nat :: IsWordAt(info.scope, w, i) {
      FieldsExact(info.scope, w);
    }
    var have := if info.scope == "" then [] else Fields(info.scope);
    for i := 0 to |want|
      invariant forall k :: 0 <= k < i ==> want[k] !in have
    {
      for j := 0 to |have|
        invariant want[i] !in have[..j]
      {
        if have[j] == want[i] {
          assert want[i] in want && want[i] in have;
          return true;
        }
      }
    }
    return false;
  }
}
