/** Idempotency keys as callers send them (internal/application/drafts/service.go:261-277). */
module RequestKeys {
  import opened Base

  const MIN_KEY_LENGTH := 8
  const MAX_KEY_LENGTH := 100

  /** White space in the sense of Unicode, which is what trimming removes. */
  predicate Space(c: char) {
    || c in ['\t', '\n', '\U{0B}', '\U{0C}', '\r', ' ', '\U{85}', '\U{A0}', '\U{1680}']
    || '\U{2000}' <= c <= '\U{200A}'
    || c in ['\U{2028}', '\U{2029}', '\U{202F}', '\U{205F}', '\U{3000}']
  }

  function TrimmedLeft(s: string): string {
    if s != "" && Space(s[0]) then TrimmedLeft(s[1..]) else s
  }

  function TrimmedRight(s: string): string {
    if s != "" && Space(s[|s| - 1]) then TrimmedRight(s[..|s| - 1]) else s
  }

  function Trimmed(s: string): string { TrimmedRight(TrimmedLeft(s)) }

  predicate Allowed(c: char) {
    'a' <= c <= 'z' || 'A' <= c <= 'Z' || '0' <= c <= '9' || c in ['.', '_', ':', '-']
  }

  /** 8 to 100 letters, digits, points, underscores, colons and hyphens. */
  predicate ValidKey(key: string) {
    && 8 <= |key| <= 100
    && forall i :: 0 <= i < |key| ==>
                     || 'a' <= key[i] <= 'z' || 'A' <= key[i] <= 'Z' || '0' <= key[i] <= '9'
                     || key[i] == '.' || key[i] == '_' || key[i] == ':' || key[i] == '-'
  }

  method ParseKey(value: string) returns (r: Option<string>)
    ensures r == if ValidKey(Trimmed(value)) then Some(Trimmed(value)) else None
  {
    var key := Trimmed(value);
    var valid := MIN_KEY_LENGTH <= |key| <= MAX_KEY_LENGTH;
    var i := 0;
    while valid && i < |key|
      invariant 0 <= i <= |key|
      invariant valid ==> MIN_KEY_LENGTH <= |key| <= MAX_KEY_LENGTH && forall j :: 0 <= j < i ==> Allowed(key[j])
      invariant !valid ==> !ValidKey(key)
    {
      valid := Allowed(key[i]);
      i := i + 1;
    }
    return if valid then Some(key) else None;
  }

  lemma {:induction false} TrimmedLeftKeeps(before: string, key: string)
    requires key != "" && !Space(key[0]) && forall i :: 0 <= i < |before| ==> Space(before[i])
    ensures TrimmedLeft(before + key) == key
  {
    if before == "" {
      assert before + key == key;
    } else {
      assert (before + key)[1..] == before[1..] + key;
      TrimmedLeftKeeps(before[1..], key);
    }
  }

  lemma {:induction false} TrimmedRightKeeps(key: string, after: string)
    requires key != "" && !Space(key[|key| - 1]) && forall i :: 0 <= i < |after| ==> Space(after[i])
    ensures TrimmedRight(key + after) == key
  {
    if after == "" {
      assert key + after == key;
    } else {
      assert (key + after)[..|key + after| - 1] == key + after[..|after| - 1];
      TrimmedRightKeeps(key, after[..|after| - 1]);
    }
  }

  lemma {:induction false} TrimmedRightMeaning(s: string) returns (k: nat)
    ensures k <= |s| && TrimmedRight(s) == s[..k] && forall i :: k <= i < |s| ==> Space(s[i])
    ensures k > 0 ==> !Space(s[k - 1])
  {
    k := |s|;
    assert s[..k] == s;
    if s != "" && Space(s[|s| - 1]) {
      var n := |s| - 1;
      k := TrimmedRightMeaning(s[..n]);
      assert s[..n][..k] == s[..k];
      forall i | k <= i < |s| ensures Space(s[i]) {
        assert i < n ==> s[..n][i] == s[i];
      }
    }
  }

  lemma {:induction false} TrimmedLeftMeaning(s: string) returns (k: nat)
    ensures k <= |s| && TrimmedLeft(s) == s[k..] && forall i :: 0 <= i < k ==> Space(s[i])
    ensures k < |s| ==> !Space(s[k])
  {
    k := 0;
    if s != "" && Space(s[0]) {
      k := TrimmedLeftMeaning(s[1..]);
      assert s[1..][k..] == s[k + 1..] && forall i :: 0 <= i < k ==> s[1..][i] == s[i + 1];
      k := k + 1;
    }
  }

  /** Trimming takes white space from both ends, nothing else, and leaves none there. */
  lemma TrimmedMeaning(s: string) returns (from: nat, until: nat)
    ensures from <= until <= |s| && Trimmed(s) == s[from..until]
    ensures (forall i :: 0 <= i < from ==> Space(s[i])) && forall i :: until <= i < |s| ==> Space(s[i])
    ensures from < until ==> !Space(s[from]) && !Space(s[until - 1])
  {
    from := TrimmedLeftMeaning(s);
    var k := TrimmedRightMeaning(s[from..]);
    until := from + k;
    assert s[from..][..k] == s[from..until] && forall i :: until <= i < |s| ==> s[i] == s[from..][i - from];
  }

  /** A key with white space around it is the same key: a retry that pads it finds the same draft. */
  lemma PaddedKeyIsSame(key: string, before: string, after: string)
    requires ValidKey(key)
    requires forall i :: 0 <= i < |before| ==> Space(before[i])
    requires forall i :: 0 <= i < |after| ==> Space(after[i])
    ensures Trimmed(before + key + after) == key
  {
    assert Allowed(key[0]) && Allowed(key[|key| - 1]);
    assert before + key + after == before + (key + after);
    TrimmedLeftKeeps(before, key + after);
    TrimmedRightKeeps(key, after);
  }
}
