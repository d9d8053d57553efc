/** The redactor as the object it is. Models `Redactor` in crates/core/src/diagnostics.rs. */
module RedactorObject {
  import opened Redaction

  class Redactor {
    var secrets: seq<Secret>

    ghost predicate Valid()
      reads this
    {
      && (forall s :: s in secrets ==> MIN_SECRET_LEN <= |s|)
      && (forall i, j :: 0 <= i < j < |secrets| ==> secrets[i] != secrets[j])
    }

    constructor ()
      ensures Valid() && secrets == []
    {
      secrets := [];
    }

    /** Register a value; very short ones are ignored and a repeat is not registered twice. */
    method AddSecret(secret: string)
      requires Valid()
      modifies this
      ensures Valid()
      ensures secrets == if MIN_SECRET_LEN <= |secret| && secret !in old(secrets) then old(secrets) + [secret]
                         else old(secrets)
    {
      if MIN_SECRET_LEN <= |secret| && secret !in secrets {
        secrets := secrets + [secret];
      }
    }

    /** The scan `str::replace` makes, left to right. */
    static method ReplaceAll(text: string, s: Secret) returns (output: string)
      ensures output == Replace(text, s)
      ensures forall parts :: Splits(text, s, parts) ==> output == Join(parts, PLACEHOLDER)
    {
      forall parts | Splits(text, s, parts) ensures Replace(text, s) == Join(parts, PLACEHOLDER) {
        WhatStandsBesideIsKept(text, s, parts);
      }
      output := "";
      var rest := text;
      while |s| <= |rest|
        invariant Replace(text, s) == output + Replace(rest, s)
        decreases |rest|
      {
        ghost var tail := Replace(rest, s);
        if rest[..|s|] == s {
          assert output + tail == output + PLACEHOLDER + Replace(rest[|s|..], s);
          output := output + PLACEHOLDER;
          rest := rest[|s|..];
        } else {
          assert output + tail == output + [rest[0]] + Replace(rest[1..], s);
          output := output + [rest[0]];
          rest := rest[1..];
        }
      }
      output := output + rest;
    }

    /** Every registered secret replaced, in the order they were registered. */
    method Redact(text: string) returns (output: string)
      requires Valid()
      ensures output == Redaction.Redact(secrets, text)
      ensures (forall s :: s in secrets ==> Apart(s)) ==> forall s :: s in secrets ==> !Contains(output, s)
    {
      output := text;
      for k := 0 to |secrets|
        invariant output == Redaction.Redact(secrets[..k], text)
      {
        assert secrets[..k + 1][..k] == secrets[..k];
        output := ReplaceAll(output, secrets[k]);
      }
      assert secrets[..|secrets|] == secrets;
      if forall s :: s in secrets ==> Apart(s) {
        RedactionIsComplete(secrets, text);
      }
    }

    /** The same over a whole tree: every string value, and nothing else. */
    method RedactTree(v: Json) returns (r: Json)
      requires Valid()
      ensures r == RedactJson(secrets, v)
      decreases v
    {
      match v {
        case Text(text) =>
          var output := Redact(text);
          r := Text(output);
        case Array(items) =>
          var done: seq<Json> := [];
          for i := 0 to |items|
            invariant |done| == i && forall k :: 0 <= k < i ==> done[k] == RedactJson(secrets, items[k])
          {
            var item := RedactTree(items[i]);
            done := done + [item];
          }
          r := Array(done);
        case Object(members) =>
          var done: seq<(string, Json)> := [];
          for i := 0 to |members|
            invariant |done| == i
            invariant forall k :: 0 <= k < i ==> done[k] == (members[k].0, RedactJson(secrets, members[k].1))
          {
            var item := RedactTree(members[i].1);
            done := done + [(members[i].0, item)];
          }
          r := Object(done);
        case Scalar(_) => r := v;
      }
    }
  }
}
