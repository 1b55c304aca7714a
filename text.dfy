/** String operations shared by the server's request validators and the
    client's article form: JavaScript's `String.prototype.trim` (which is also
    what the validators' `trim()` sanitizer removes) and the global regular
    expression replace `/<[^>]*>/g` -> "" that strips markup. */
module Text {
  import opened Common

  /** ECMAScript WhiteSpace and LineTerminator code points: exactly the
      characters `trim` drops at either end of a string. */
  predicate IsSpace(c: char) {
    || c == '\t' || c == '\n' || c == '\U{B}' || c == '\U{C}' || c == '\r' || c == ' '
    || c == '\U{A0}' || c == '\U{1680}' || ('\U{2000}' <= c <= '\U{200A}')
    || c == '\U{2028}' || c == '\U{2029}' || c == '\U{202F}' || c == '\U{205F}'
    || c == '\U{3000}' || c == '\U{FEFF}'
  }

  /** `s` with its leading white space removed: a suffix of `s`. */
  function TrimStart(s: string): (r: string)
    ensures |r| <= |s|
    ensures r == [] || !IsSpace(r[0])
  {
    if s != [] && IsSpace(s[0]) then TrimStart(s[1..]) else s
  }

  /** `TrimStart` keeps a suffix. */
  lemma {:induction false} TrimStartIsSuffix(s: string)
    ensures TrimStart(s) == s[|s| - |TrimStart(s)|..]
    decreases |s|
  {
    if s != [] && IsSpace(s[0]) {
      TrimStartIsSuffix(s[1..]);
    }
  }

  /** What `TrimStart` drops is white space. */
  lemma {:induction false} TrimStartDropsSpace(s: string)
    ensures forall i :: 0 <= i < |s| - |TrimStart(s)| ==> IsSpace(s[i])
    decreases |s|
  {
    if s != [] && IsSpace(s[0]) {
      TrimStartDropsSpace(s[1..]);
      assert forall i :: 1 <= i < |s| ==> s[i] == s[1..][i - 1];
    }
  }

  /** `s` with its trailing white space removed: a prefix of `s`. */
  function TrimEnd(s: string): (r: string)
    ensures |r| <= |s|
    ensures r == [] || !IsSpace(r[|r| - 1])
  {
    if s != [] && IsSpace(s[|s| - 1]) then TrimEnd(s[..|s| - 1]) else s
  }

  /** `TrimEnd` keeps a prefix. */
  lemma {:induction false} TrimEndIsPrefix(s: string)
    ensures TrimEnd(s) == s[..|TrimEnd(s)|]
    decreases |s|
  {
    if s != [] && IsSpace(s[|s| - 1]) {
      TrimEndIsPrefix(s[..|s| - 1]);
    }
  }

  /** What `TrimEnd` drops is white space. */
  lemma {:induction false} TrimEndDropsSpace(s: string)
    ensures forall i :: |TrimEnd(s)| <= i < |s| ==> IsSpace(s[i])
    decreases |s|
  {
    if s != [] && IsSpace(s[|s| - 1]) {
      TrimEndDropsSpace(s[..|s| - 1]);
    }
  }

  /** JavaScript's `s.trim()`. */
  function Trim(s: string): (r: string)
    ensures |r| <= |s|
    ensures r == [] || (!IsSpace(r[0]) && !IsSpace(r[|r| - 1]))
  {
    var t := TrimStart(s);
    var r := TrimEnd(t);
    TrimEndIsPrefix(t);
    assert r != [] ==> r[0] == t[0];
    r
  }

  /** Trimming leaves nothing exactly when the string is all white space. */
  lemma TrimEmptyIffAllSpace(s: string)
    ensures Trim(s) == [] <==> forall i :: 0 <= i < |s| ==> IsSpace(s[i])
  {
    var t := TrimStart(s);
    TrimStartIsSuffix(s);
    TrimStartDropsSpace(s);
    TrimEndDropsSpace(t);
    assert Trim(s) == [] ==> t == [] by {
      if t != [] {
        assert !IsSpace(t[0]);
      }
    }
  }

  /** Trimming is idempotent. */
  lemma {:induction false} TrimIdempotent(s: string)
    ensures Trim(Trim(s)) == Trim(s)
  {
    var r := Trim(s);
    assert TrimStart(r) == r;
    if r != [] {
      assert TrimEnd(r) == r;
    }
  }

  /** The index of the first `c` at or after position `i`, or `|s|` when
      there is none. */
  function IndexFrom(s: string, c: char, i: nat): (j: nat)
    requires i <= |s|
    ensures i <= j <= |s|
    ensures j < |s| ==> s[j] == c
    ensures forall k :: i <= k < j ==> s[k] != c
    decreases |s| - i
  {
    if i == |s| || s[i] == c then i else IndexFrom(s, c, i + 1)
  }

  /** `s.startsWith(prefix)`. */
  predicate StartsWith(s: string, prefix: string) {
    |prefix| <= |s| && s[..|prefix|] == prefix
  }

  /** `s[i]` is the first space of `s` and `v` is the run of non-spaces that
      follows it, up to the next space or the end. */
  predicate FieldAfterFirstSpace(s: string, i: int, v: string) {
    0 <= i < |s| && s[i] == ' ' && ' ' !in s[..i]
    && |v| <= |s| - i - 1 && s[i + 1..][..|v|] == v
    && (|v| == |s| - i - 1 || s[i + 1 + |v|] == ' ')
  }

  /** `s.split(' ')[1]`: the text between the first and the second space
      (or the end), `None` (JavaScript's `undefined`) when `s` has no space. */
  function SecondField(s: string): (r: Option<string>)
    ensures r.None? <==> ' ' !in s
    ensures r.Some? ==> ' ' !in r.value
    ensures r.Some? ==> exists i :: FieldAfterFirstSpace(s, i, r.value)
  {
    var i := IndexFrom(s, ' ', 0);
    if i == |s| then None
    else
      var rest := s[i + 1..];
      var j := IndexFrom(rest, ' ', 0);
      assert ' ' !in s[..i] by {
        assert forall k | 0 <= k < i :: s[..i][k] == s[k];
      }
      var v := rest[..j];
      assert FieldAfterFirstSpace(s, i, v);
      Some(v)
  }

  /** `s.replace(/<[^>]*>/g, "")`: scanning left to right, every `<` that has a
      `>` somewhere after it is removed together with everything up to and
      including the first such `>`; a `<` with no `>` after it stays. */
  function StripTags(s: string): (r: string)
    ensures |r| <= |s|
    ensures forall c :: c in r ==> c in s
    decreases |s|
  {
    if s == [] then []
    else if s[0] == '<' && IndexFrom(s, '>', 1) < |s| then StripTags(s[IndexFrom(s, '>', 1) + 1..])
    else [s[0]] + StripTags(s[1..])
  }

  /** Text before the first `<` passes through unchanged. */
  lemma {:induction false} StripTagsKeepsText(u: string, v: string)
    requires '<' !in u
    ensures StripTags(u + v) == u + StripTags(v)
    decreases |u|
  {
    if u == [] {
      assert u + v == v;
    } else {
      var s := u + v;
      assert s[0] == u[0] && s[1..] == u[1..] + v;
      StripTagsKeepsText(u[1..], v);
    }
  }

  /** A `<`, text without `>`, then `>`: the whole tag is removed. */
  lemma StripTagsDropsTag(t: string, v: string)
    requires '>' !in t
    ensures StripTags("<" + t + ">" + v) == StripTags(v)
  {
    var s := "<" + t + ">" + v;
    assert s[|t| + 1] == '>';
    assert forall k :: 1 <= k <= |t| ==> s[k] == t[k - 1];
    assert IndexFrom(s, '>', 1) == |t| + 1;
    assert s[|t| + 2..] == v;
  }

  /** No `<` is followed, anywhere later, by a `>`: nothing the tag pattern
      could match. */
  predicate NoTag(s: string) {
    forall i, j :: 0 <= i < j < |s| && s[i] == '<' ==> s[j] != '>'
  }

  /** Stripping leaves nothing the pattern would match. */
  lemma {:induction false} StripTagsLeavesNoTag(s: string)
    ensures NoTag(StripTags(s))
    decreases |s|
  {
    if s == [] {
    } else if s[0] == '<' && IndexFrom(s, '>', 1) < |s| {
      StripTagsLeavesNoTag(s[IndexFrom(s, '>', 1) + 1..]);
    } else {
      var rest := StripTags(s[1..]);
      StripTagsLeavesNoTag(s[1..]);
      var r := [s[0]] + rest;
      forall i, j | 0 <= i < j < |r| && r[i] == '<' ensures r[j] != '>' {
        if i == 0 {
          assert r[j] == rest[j - 1] && r[j] in rest;
          assert forall m :: 0 <= m < |s| - 1 ==> s[1..][m] == s[m + 1] != '>';
        } else {
          assert r[i] == rest[i - 1] && r[j] == rest[j - 1];
        }
      }
    }
  }

  /** A string with nothing to strip is left as it is. */
  lemma {:induction false} StripTagsFixesNoTag(s: string)
    requires NoTag(s)
    ensures StripTags(s) == s
    decreases |s|
  {
    if s != [] {
      if s[0] == '<' {
        assert IndexFrom(s, '>', 1) == |s|;
      }
      assert NoTag(s[1..]) by {
        forall i, j | 0 <= i < j < |s| - 1 && s[1..][i] == '<' ensures s[1..][j] != '>' {
          assert s[i + 1] == '<';
        }
      }
      StripTagsFixesNoTag(s[1..]);
    }
  }

  /** Stripping is idempotent. */
  lemma StripTagsIdempotent(s: string)
    ensures StripTags(StripTags(s)) == StripTags(s)
  {
    StripTagsLeavesNoTag(s);
    StripTagsFixesNoTag(StripTags(s));
  }

  /** `t` is `s` with some characters deleted. */
  predicate IsSubsequence(t: string, s: string)
    decreases |s|
  {
    || t == []
    || (s != [] && (IsSubsequence(t, s[1..]) || (t[0] == s[0] && IsSubsequence(t[1..], s[1..]))))
  }

  lemma {:induction false} SubsequenceOfSuffix(t: string, s: string, k: nat)
    requires k <= |s| && IsSubsequence(t, s[k..])
    ensures IsSubsequence(t, s)
    decreases k
  {
    if k > 0 {
      assert s[k - 1..][1..] == s[k..];
      SubsequenceOfSuffix(t, s, k - 1);
    }
  }

  /** Stripping markup only deletes characters. */
  lemma {:induction false} StripTagsIsSubsequence(s: string)
    ensures IsSubsequence(StripTags(s), s)
    decreases |s|
  {
    if s == [] {
    } else if s[0] == '<' && IndexFrom(s, '>', 1) < |s| {
      var k := IndexFrom(s, '>', 1) + 1;
      StripTagsIsSubsequence(s[k..]);
      SubsequenceOfSuffix(StripTags(s), s, k);
    } else {
      StripTagsIsSubsequence(s[1..]);
      var r := StripTags(s);
      assert r[0] == s[0] && r[1..] == StripTags(s[1..]);
    }
  }

  /** How much of `x :: u` survives trimming at the end. */
  lemma TrimEndCons(x: char, u: string)
    ensures |TrimEnd([x] + u)| == if TrimEnd(u) != [] then 1 + |TrimEnd(u)| else if IsSpace(x) then 0 else 1
  {
    var s := [x] + u;
    var f := TrimEnd(u);
    TrimEndIsPrefix(s);
    TrimEndIsPrefix(u);
    TrimEndDropsSpace(s);
    TrimEndDropsSpace(u);
    assert forall k :: 1 <= k < |s| ==> s[k] == u[k - 1];
    if f != [] {
      assert s[|f|] == u[|f| - 1];
      assert forall k :: |f| + 1 <= k < |s| ==> IsSpace(s[k]);
    } else {
      assert s[0] == x;
      assert forall k :: 1 <= k < |s| ==> IsSpace(s[k]);
    }
  }

  /** Deleting characters never lengthens what is left after trimming the end. */
  lemma {:induction false} SubsequenceTrimEnd(t: string, s: string)
    requires IsSubsequence(t, s)
    ensures |TrimEnd(t)| <= |TrimEnd(s)|
    decreases |s|
  {
    if t == [] {
    } else if IsSubsequence(t, s[1..]) {
      SubsequenceTrimEnd(t, s[1..]);
      assert s == [s[0]] + s[1..];
      TrimEndCons(s[0], s[1..]);
    } else {
      SubsequenceTrimEnd(t[1..], s[1..]);
      assert s == [s[0]] + s[1..] && t == [t[0]] + t[1..];
      TrimEndCons(s[0], s[1..]);
      TrimEndCons(t[0], t[1..]);
    }
  }

  /** How long `x :: u` is once trimmed at both ends. */
  lemma TrimCons(x: char, u: string)
    ensures |Trim([x] + u)| == if IsSpace(x) then |Trim(u)| else 1 + |TrimEnd(u)|
  {
    var s := [x] + u;
    assert s[1..] == u;
    if !IsSpace(x) {
      assert TrimStart(s) == s;
      TrimEndCons(x, u);
    }
  }

  /** Trimming both ends keeps no more than trimming the end alone. */
  lemma TrimAtMostTrimEnd(u: string)
    ensures |Trim(u)| <= |TrimEnd(u)|
  {
    var t := TrimStart(u);
    TrimStartIsSuffix(u);
    SubsequenceOfSuffix(t, u, |u| - |t|) by {
      SubsequenceOfItself(t);
    }
    SubsequenceTrimEnd(t, u);
  }

  lemma {:induction false} SubsequenceOfItself(s: string)
    ensures IsSubsequence(s, s)
    decreases |s|
  {
    if s != [] {
      SubsequenceOfItself(s[1..]);
    }
  }

  /** Deleting characters never lengthens what is left after trimming. */
  lemma {:induction false} SubsequenceTrim(t: string, s: string)
    requires IsSubsequence(t, s)
    ensures |Trim(t)| <= |Trim(s)|
    decreases |s|
  {
    if t == [] {
    } else if IsSubsequence(t, s[1..]) {
      SubsequenceTrim(t, s[1..]);
      assert s == [s[0]] + s[1..];
      TrimCons(s[0], s[1..]);
      TrimAtMostTrimEnd(s[1..]);
    } else {
      assert s == [s[0]] + s[1..] && t == [t[0]] + t[1..];
      TrimCons(s[0], s[1..]);
      TrimCons(t[0], t[1..]);
      SubsequenceTrim(t[1..], s[1..]);
      SubsequenceTrimEnd(t[1..], s[1..]);
    }
  }

  /** Text with the markup stripped and then trimmed is never longer than the
      raw text trimmed. */
  lemma StrippedTrimmedAtMostTrimmed(s: string)
    ensures |Trim(StripTags(s))| <= |Trim(s)|
  {
    StripTagsIsSubsequence(s);
    SubsequenceTrim(StripTags(s), s);
  }
}
