/**
 Sequential replacement of registered secrets in free text and over a JSON tree.
 Models `Redactor` in crates/core/src/diagnostics.rs. A string is its sequence of UTF-8 code units,
 which is what both `len` and a byte-wise replacement see.
 */
module Redaction {

  const PLACEHOLDER: string := "[redacted]"
  const MIN_SECRET_LEN: nat := 4

  /** What is left of the length rule here: a secret is not empty. */
  type Secret = s: string | s != "" witness "?"

  predicate OccursAt(text: string, s: string, i: nat) {
    i + |s| <= |text| && text[i..i + |s|] == s
  }

  ghost predicate Contains(text: string, s: string) {
    exists i: nat :: OccursAt(text, s, i)
  }

  /** `str::replace`: every occurrence from the left, none overlapping the one before it. */
  function Replace(text: string, s: Secret): string
  {
    if |text| < |s| then text
    else if text[..|s|] == s then PLACEHOLDER + Replace(text[|s|..], s)
    else [text[0]] + Replace(text[1..], s)
  }

  /** Replace by each secret in the order they were registered. */
  function Redact(secrets: seq<Secret>, text: string): string
  {
    if secrets == [] then text
    else Replace(Redact(secrets[..|secrets| - 1], text), secrets[|secrets| - 1])
  }

  predicate BracketFree(s: string) {
    '[' !in s && ']' !in s
  }

  /** A secret the placeholder can neither carry nor be part of. */
  ghost predicate Apart(s: Secret) {
    BracketFree(s) && !Contains("redacted", s)
  }

  // ---------------------------------------------------------------- one replacement

  /** Up to its first placeholder, the output is a copy. */
  lemma {:induction false} CopyUntilBracket(text: string, s: Secret, n: nat)
    requires n <= |Replace(text, s)| && '[' !in Replace(text, s)[..n]
    ensures n <= |text| && Replace(text, s)[..n] == text[..n]
  {
    if n > 0 && |text| >= |s| {
      var out := Replace(text, s);
      assert out[0] in out[..n];
      assert text[..|s|] != s;
      assert out[..n] == [text[0]] + Replace(text[1..], s)[..n - 1];
      CopyUntilBracket(text[1..], s, n - 1);
    }
  }

  lemma Covered(text: string, t: string, i: nat, k: nat)
    requires OccursAt(text, t, i) && i <= k < i + |t|
    ensures text[k] in t
  {
    assert text[k] == text[i..i + |t|][k - i];
  }

  /** A string apart from the placeholder cannot begin inside one. */
  lemma NotInPlaceholder(rest: string, t: Secret, i: nat)
    requires Apart(t) && OccursAt(PLACEHOLDER + rest, t, i)
    ensures i >= |PLACEHOLDER| && OccursAt(rest, t, i - |PLACEHOLDER|)
  {
    var out := PLACEHOLDER + rest;
    if i == 0 {
      Covered(out, t, i, 0);
    } else if i <= 9 < i + |t| {
      Covered(out, t, i, 9);
    } else if i <= 9 {
      assert "redacted"[i - 1..i - 1 + |t|] == out[i..i + |t|];
      assert OccursAt("redacted", t, i - 1);
    } else {
      assert rest[i - |PLACEHOLDER|..i - |PLACEHOLDER| + |t|] == out[i..i + |t|];
    }
  }

  /** Whatever is apart from the placeholder and found after a replacement was there before it. */
  lemma {:induction false} NothingIsCreated(text: string, s: Secret, t: Secret, i: nat)
    requires Apart(t) && OccursAt(Replace(text, s), t, i)
    ensures Contains(text, t)
  {
    var out := Replace(text, s);
    if |text| < |s| {
    } else if text[..|s|] == s {
      NotInPlaceholder(Replace(text[|s|..], s), t, i);
      NothingIsCreated(text[|s|..], s, t, i - |PLACEHOLDER|);
      Deeper(text, |s|, t);
    } else if i > 0 {
      assert out[1..] == Replace(text[1..], s);
      assert out[1..][i - 1..i - 1 + |t|] == out[i..i + |t|];
      NothingIsCreated(text[1..], s, t, i - 1);
      Deeper(text, 1, t);
    } else {
      CopyUntilBracket(text, s, |t|);
      assert OccursAt(text, t, 0);
    }
  }

  lemma Deeper(text: string, n: nat, t: string)
    requires n <= |text| && Contains(text[n..], t)
    ensures Contains(text, t)
  {
    var i: nat :| OccursAt(text[n..], t, i);
    assert text[n + i..n + i + |t|] == text[n..][i..i + |t|];
    assert OccursAt(text, t, n + i);
  }

  /** The secret replaced is gone. */
  lemma {:induction false} ReplacedIsGone(text: string, s: Secret, i: nat)
    requires Apart(s)
    ensures !OccursAt(Replace(text, s), s, i)
  {
    var out := Replace(text, s);
    if OccursAt(out, s, i) && |text| >= |s| {
      if text[..|s|] == s {
        NotInPlaceholder(Replace(text[|s|..], s), s, i);
        ReplacedIsGone(text[|s|..], s, i - |PLACEHOLDER|);
      } else if i > 0 {
        assert out[1..] == Replace(text[1..], s);
        assert out[1..][i - 1..i - 1 + |s|] == out[i..i + |s|];
        ReplacedIsGone(text[1..], s, i - 1);
      } else {
        CopyUntilBracket(text, s, |s|);
      }
    }
  }

  /** A replacement that finds something leaves a placeholder; one that does not changes nothing. */
  lemma {:induction false} ReplacementShows(text: string, s: Secret)
    ensures if Contains(text, s) then Contains(Replace(text, s), "redacted") else Replace(text, s) == text
  {
    if |text| < |s| {
    } else if text[..|s|] == s {
      assert OccursAt(text, s, 0);
      assert OccursAt(Replace(text, s), "redacted", 1);
    } else {
      ReplacementShows(text[1..], s);
      if Contains(text, s) {
        var i: nat :| OccursAt(text, s, i);
        assert i > 0 && text[1..][i - 1..i - 1 + |s|] == s;
        assert OccursAt(text[1..], s, i - 1);
        assert Replace(text, s)[1..] == Replace(text[1..], s);
        Deeper(Replace(text, s), 1, "redacted");
      } else if Contains(text[1..], s) {
        Deeper(text, 1, s);
      }
    }
  }

  // ---------------------------------------------------------------- what stands beside a secret

  /** The first place where `s` occurs. */
  ghost predicate FirstAt(text: string, s: string, n: nat) {
    OccursAt(text, s, n) && forall i: nat :: i < n ==> !OccursAt(text, s, i)
  }

  /** `a`, an occurrence of `s`, `b`; and no occurrence begins inside `a`. */
  ghost predicate Leads(a: string, s: Secret, b: string) {
    forall i: nat :: i < |a| ==> !OccursAt(a + (s + b), s, i)
  }

  lemma LeadsOn(a: string, s: Secret, b: string)
    requires Leads(a, s, b) && a != []
    ensures Leads(a[1..], s, b) && (a + (s + b))[1..] == a[1..] + (s + b) && !OccursAt(a + (s + b), s, 0)
  {
    var text, tail := a + (s + b), a[1..] + (s + b);
    assert text[1..] == tail;
    forall i: nat | i < |a[1..]| ensures !OccursAt(tail, s, i) {
      assert !OccursAt(text, s, i + 1);
      if i + |s| <= |tail| {
        assert tail[i..i + |s|] == text[i + 1..i + 1 + |s|];
      }
    }
  }

  /** A character no occurrence begins at is copied. */
  lemma ReplacementMovesOn(text: string, s: Secret)
    requires |s| <= |text| && !OccursAt(text, s, 0)
    ensures Replace(text, s) == [text[0]] + Replace(text[1..], s)
  {
  }

  lemma ReplacementBegins(s: Secret, b: string)
    ensures Replace(s + b, s) == PLACEHOLDER + Replace(b, s)
  {
    assert (s + b)[..|s|] == s && (s + b)[|s|..] == b;
  }

  /** The text up to the first occurrence is copied, the occurrence becomes one placeholder, and what follows it
      is replaced in its turn. */
  lemma {:induction false} TheFirstIsReplaced(a: string, s: Secret, b: string)
    requires Leads(a, s, b)
    ensures Replace(a + (s + b), s) == a + (PLACEHOLDER + Replace(b, s))
  {
    if a == [] {
      ReplacementBegins(s, b);
      assert a + (s + b) == s + b;
      assert a + (PLACEHOLDER + Replace(b, s)) == PLACEHOLDER + Replace(b, s);
    } else {
      LeadsOn(a, s, b);
      TheFirstIsReplaced(a[1..], s, b);
      ReplacementMovesOn(a + (s + b), s);
      Glued(a, PLACEHOLDER + Replace(b, s));
    }
  }

  lemma Glued(a: string, rest: string)
    requires a != []
    ensures [a[0]] + (a[1..] + rest) == a + rest
  {
  }

  lemma CutAt(text: string, s: Secret, n: nat)
    requires OccursAt(text, s, n)
    ensures text == text[..n] + (s + text[n + |s|..])
  {
    assert text[n..] == text[n..n + |s|] + text[n + |s|..];
  }

  function Join(parts: seq<string>, between: string): string
    requires parts != []
  {
    if |parts| == 1 then parts[0] else parts[0] + (between + Join(parts[1..], between))
  }

  /** The parts a text falls into at the occurrences of `s`, each found from the left after the one before. */
  ghost predicate Splits(text: string, s: Secret, parts: seq<string>)
    decreases |parts|
  {
    && parts != []
    && if |parts| == 1 then parts[0] == text && !Contains(text, s)
       else
         && FirstAt(text, s, |parts[0]|)
         && parts[0] == text[..|parts[0]|]
         && Splits(text[|parts[0]| + |s|..], s, parts[1..])
  }

  /** Whatever the text, the parts beside the secret come through whole and in order, with one placeholder where
      each occurrence was. */
  lemma {:induction false} WhatStandsBesideIsKept(text: string, s: Secret, parts: seq<string>)
    requires Splits(text, s, parts)
    ensures text == Join(parts, s)
    ensures Replace(text, s) == Join(parts, PLACEHOLDER)
    decreases |parts|
  {
    if |parts| == 1 {
      ReplacementShows(text, s);
    } else {
      var n := |parts[0]|;
      var rest := text[n + |s|..];
      WhatStandsBesideIsKept(rest, s, parts[1..]);
      CutAt(text, s, n);
      TheFirstIsReplaced(parts[0], s, rest);
    }
  }

  /** And none of the parts holds the secret. */
  lemma {:induction false} PartsAreClean(text: string, s: Secret, parts: seq<string>, k: nat)
    requires Splits(text, s, parts) && k < |parts|
    ensures !Contains(parts[k], s)
    decreases |parts|
  {
    if |parts| > 1 {
      if k == 0 {
        NoneBeforeTheFirst(text, s, |parts[0]|);
      } else {
        PartsAreClean(text[|parts[0]| + |s|..], s, parts[1..], k - 1);
      }
    }
  }

  lemma NoneBeforeTheFirst(text: string, s: Secret, n: nat)
    requires FirstAt(text, s, n)
    ensures !Contains(text[..n], s)
  {
    if Contains(text[..n], s) {
      var i: nat :| OccursAt(text[..n], s, i);
      assert text[..n][i..i + |s|] == text[i..i + |s|];
      assert OccursAt(text, s, i);
    }
  }

  /** Every text falls into such parts. */
  lemma {:induction false} EveryTextSplits(text: string, s: Secret) returns (parts: seq<string>)
    ensures Splits(text, s, parts)
  {
    if !Contains(text, s) {
      parts := [text];
    } else {
      var n := TheFirst(text, s);
      var rest := EveryTextSplits(text[n + |s|..], s);
      parts := [text[..n]] + rest;
      assert parts[1..] == rest;
    }
  }

  lemma TheFirst(text: string, s: Secret) returns (n: nat)
    requires Contains(text, s)
    ensures FirstAt(text, s, n) && n + |s| <= |text|
  {
    n := 0;
    var last: nat :| OccursAt(text, s, last);
    while !OccursAt(text, s, n)
      invariant n <= last && forall i: nat :: i < n ==> !OccursAt(text, s, i)
      decreases last - n
    {
      n := n + 1;
    }
  }

  /** Secrets are replaced in the order they were registered: the first one in the text itself. */
  lemma {:induction false} TheFirstRegisteredGoesFirst(first: Secret, rest: seq<Secret>, text: string)
    ensures Redact([first] + rest, text) == Redact(rest, Replace(text, first))
  {
    if rest == [] {
      assert [first] + rest == [first] && [first][..0] == [];
    } else {
      var n := |rest| - 1;
      assert ([first] + rest)[..|rest|] == [first] + rest[..n];
      TheFirstRegisteredGoesFirst(first, rest[..n], text);
    }
  }

  // ---------------------------------------------------------------- every replacement

  /** Later replacements never bring an earlier secret back. */
  lemma {:induction false} RedactionIsComplete(secrets: seq<Secret>, text: string)
    requires forall s :: s in secrets ==> Apart(s)
    ensures forall s :: s in secrets ==> !Contains(Redact(secrets, text), s)
  {
    if secrets != [] {
      var earlier, last := secrets[..|secrets| - 1], secrets[|secrets| - 1];
      RedactionIsComplete(earlier, text);
      var before := Redact(earlier, text);
      forall s: Secret | s in secrets ensures !Contains(Redact(secrets, text), s) {
        forall i: nat ensures !OccursAt(Replace(before, last), s, i) {
          if s == last {
            ReplacedIsGone(before, last, i);
          } else if OccursAt(Replace(before, last), s, i) {
            assert s in earlier;
            NothingIsCreated(before, last, s, i);
          }
        }
      }
    }
  }

  lemma Within(text: string, s: string, t: string)
    requires Contains(text, s) && Contains(s, t)
    ensures Contains(text, t)
  {
    var i: nat :| OccursAt(text, s, i);
    var j: nat :| OccursAt(s, t, j);
    forall k | 0 <= k < |t| ensures text[i + j + k] == t[k] {
      assert text[i + j + k] == text[i..i + |s|][j + k] && s[j + k] == s[j..j + |t|][k];
    }
    assert text[i + j..i + j + |t|] == t;
    assert OccursAt(text, t, i + j);
  }

  /** A secret that is part of the word "redacted" survives any redaction of a text holding it. */
  lemma {:induction false} PartsOfThePlaceholderSurvive(secrets: seq<Secret>, text: string, s: string)
    requires Contains("redacted", s) && Contains(text, s)
    ensures Contains(Redact(secrets, text), s)
  {
    if secrets != [] {
      var earlier, last := secrets[..|secrets| - 1], secrets[|secrets| - 1];
      PartsOfThePlaceholderSurvive(earlier, text, s);
      ReplacementShows(Redact(earlier, text), last);
      if Contains(Redact(earlier, text), last) {
        Within(Redact(secrets, text), "redacted", s);
      }
    }
  }

  /** No text, once redacted, holds any of the secrets. */
  ghost predicate NeverLeaks(secrets: seq<Secret>) {
    forall text: string, s: Secret :: s in secrets ==> !Contains(Redact(secrets, text), s)
  }

  /** For secrets without brackets the condition is exact: nothing registered ever survives in any
      text if and only if no registered secret is part of the word "redacted". */
  lemma RedactionIsCompleteExactlyWhen(secrets: seq<Secret>)
    requires forall s :: s in secrets ==> BracketFree(s)
    ensures NeverLeaks(secrets) <==> forall s :: s in secrets ==> !Contains("redacted", s)
  {
    if forall s :: s in secrets ==> !Contains("redacted", s) {
      forall text: string, s: Secret | s in secrets ensures !Contains(Redact(secrets, text), s) {
        RedactionIsComplete(secrets, text);
      }
    } else {
      var s: Secret :| s in secrets && Contains("redacted", s);
      assert OccursAt(s, s, 0);
      PartsOfThePlaceholderSurvive(secrets, s, s);
      assert Contains(Redact(secrets, s), s);
    }
  }

  /** A text holding no secret leaves as it came. */
  lemma {:induction false} CleanTextIsKept(secrets: seq<Secret>, text: string)
    requires forall s :: s in secrets ==> !Contains(text, s)
    ensures Redact(secrets, text) == text
  {
    if secrets != [] {
      CleanTextIsKept(secrets[..|secrets| - 1], text);
      ReplacementShows(text, secrets[|secrets| - 1]);
    }
  }

  // ---------------------------------------------------------------- the tree

  datatype Json =
    | Text(text: string)
    | Array(items: seq<Json>)
    | Object(members: seq<(string, Json)>)
    | Scalar(value: int)

  function RedactJson(secrets: seq<Secret>, v: Json): Json
  {
    match v
    case Text(text) => Text(Redact(secrets, text))
    case Array(items) =>
      Array(seq(|items|, i requires 0 <= i < |items| => RedactJson(secrets, items[i])))
    case Object(members) =>
      Object(seq(|members|, i requires 0 <= i < |members| =>
                   (members[i].0, RedactJson(secrets, members[i].1))))
    case Scalar(_) => v
  }

  /** No string value anywhere in the tree holds `s`. */
  ghost predicate Clean(v: Json, s: string) {
    match v
    case Text(text) => !Contains(text, s)
    case Array(items) => forall i :: 0 <= i < |items| ==> Clean(items[i], s)
    case Object(members) => forall i :: 0 <= i < |members| ==> Clean(members[i].1, s)
    case Scalar(_) => true
  }

  /** The whole export: no string value of the swept tree holds any registered secret. */
  lemma {:induction false} TreeRedactionIsComplete(secrets: seq<Secret>, v: Json, s: string)
    requires forall u :: u in secrets ==> Apart(u)
    requires s in secrets
    ensures Clean(RedactJson(secrets, v), s)
  {
    match v
    case Text(text) => RedactionIsComplete(secrets, text);
    case Array(items) =>
      forall i | 0 <= i < |items| ensures Clean(RedactJson(secrets, items[i]), s) {
        TreeRedactionIsComplete(secrets, items[i], s);
      }
    case Object(members) =>
      forall i | 0 <= i < |members| ensures Clean(RedactJson(secrets, members[i].1), s) {
        TreeRedactionIsComplete(secrets, members[i].1, s);
      }
    case Scalar(_) =>
  }

  /** A tree that holds no secret is exported unchanged: nothing but secrets is ever swept. */
  lemma {:induction false} CleanTreeIsKept(secrets: seq<Secret>, v: Json)
    requires forall s :: s in secrets ==> Clean(v, s)
    ensures RedactJson(secrets, v) == v
  {
    match v
    case Text(text) => CleanTextIsKept(secrets, text);
    case Array(items) =>
      forall i | 0 <= i < |items| ensures RedactJson(secrets, items[i]) == items[i] {
        CleanTreeIsKept(secrets, items[i]);
      }
    case Object(members) =>
      forall i | 0 <= i < |members| ensures RedactJson(secrets, members[i].1) == members[i].1 {
        CleanTreeIsKept(secrets, members[i].1);
      }
    case Scalar(_) =>
  }

  /** The same tree with other texts: as many items and members, the same keys, the same numbers. */
  ghost predicate SameShape(v: Json, w: Json) {
    match v
    case Text(_) => w.Text?
    case Array(items) =>
      w.Array? && |w.items| == |items| && forall i :: 0 <= i < |items| ==> SameShape(items[i], w.items[i])
    case Object(members) =>
      && w.Object? && |w.members| == |members|
      && forall i :: 0 <= i < |members| ==>
           members[i].0 == w.members[i].0 && SameShape(members[i].1, w.members[i].1)
    case Scalar(_) => w == v
  }

  /** A sweep changes texts and nothing else. */
  lemma {:induction false} SweepingKeepsTheShape(secrets: seq<Secret>, v: Json)
    ensures SameShape(v, RedactJson(secrets, v))
  {
    match v
    case Text(_) =>
    case Array(items) =>
      forall i | 0 <= i < |items| ensures SameShape(items[i], RedactJson(secrets, items[i])) {
        SweepingKeepsTheShape(secrets, items[i]);
      }
    case Object(members) =>
      forall i | 0 <= i < |members| ensures SameShape(members[i].1, RedactJson(secrets, members[i].1)) {
        SweepingKeepsTheShape(secrets, members[i].1);
      }
    case Scalar(_) =>
  }
}
