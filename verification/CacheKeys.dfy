/** The string keys of the model, prefix and input caches (runtime/backend.rs) and what two equal
    keys say about the requests behind them. */
module CacheKeys {
  import opened Sequences
  import opened Text
  import opened Utf8

  datatype Config = Config(generation: nat, batch: nat, logical: nat, physical: nat)

  /** The two hash functions: the 64-bit one of the standard library over text, and SHA-256. */
  datatype Hashes = Hashes(text: string -> nat, digest: seq<Byte> -> seq<Byte>)

  /** The assumption under which the caches are correct: no two inputs share a hash. */
  ghost predicate CollisionFree(h: Hashes) {
    && (forall a, b :: h.text(a) == h.text(b) ==> a == b)
    && (forall a, b :: h.digest(a) == h.digest(b) ==> a == b)
  }

  // ---------- Field formatting ----------

  predicate NoColon(s: string) { forall i :: 0 <= i < |s| ==> s[i] != ':' }

  function Digit(n: nat): char
    requires n < 16
  {
    "0123456789abcdef"[n]
  }

  function Decimal(n: nat): (s: string)
    ensures s != [] && NoColon(s)
  {
    if n < 10 then [Digit(n)] else Decimal(n / 10) + [Digit(n % 10)]
  }

  function Hex(bytes: seq<Byte>): (s: string)
    ensures NoColon(s) && |s| == 2 * |bytes|
  {
    if bytes == [] then [] else [Digit(bytes[0] / 16), Digit(bytes[0] % 16)] + Hex(bytes[1..])
  }

  lemma DigitInjective(a: nat, b: nat)
    requires a < 16 && b < 16 && Digit(a) == Digit(b)
    ensures a == b
  {
  }

  lemma {:induction false} DecimalInjective(a: nat, b: nat)
    requires Decimal(a) == Decimal(b)
    ensures a == b
  {
    var s, t := Decimal(a), Decimal(b);
    DigitInjective(a % 10, b % 10) by {
      assert s[|s| - 1] == Digit(a % 10) && t[|t| - 1] == Digit(b % 10);
    }
    if a >= 10 && b >= 10 {
      assert s[..|s| - 1] == Decimal(a / 10) && t[..|t| - 1] == Decimal(b / 10);
      DecimalInjective(a / 10, b / 10);
    }
  }

  lemma {:induction false} HexInjective(a: seq<Byte>, b: seq<Byte>)
    requires Hex(a) == Hex(b)
    ensures a == b
  {
    if a != [] && b != [] {
      var s, t := Hex(a), Hex(b);
      assert s[0] == t[0] && s[1] == t[1] && s[2..] == Hex(a[1..]) && t[2..] == Hex(b[1..]);
      DigitInjective(a[0] / 16, b[0] / 16);
      DigitInjective(a[0] % 16, b[0] % 16);
      HexInjective(a[1..], b[1..]);
      assert a[0] == b[0];
      assert a == [a[0]] + a[1..] && b == [b[0]] + b[1..];
    } else {
      assert |Hex(a)| == 2 * |a| && |Hex(b)| == 2 * |b|;
    }
  }

  /** `head` followed by fields, each after a colon. */
  function Joined(head: string, fields: seq<string>): string {
    if fields == [] then head else Joined(head, fields[..|fields| - 1]) + ":" + fields[|fields| - 1]
  }

  lemma LastFieldIsUnique(a: string, x: string, b: string, y: string)
    requires NoColon(x) && NoColon(y) && a + ":" + x == b + ":" + y
    ensures a == b && x == y
  {
    var s := a + ":" + x;
    assert s[|a|] == ':' && s[|b|] == ':';
    assert forall k :: |a| < k < |s| ==> s[k] == x[k - |a| - 1];
    assert forall k :: |b| < k < |s| ==> s[k] == y[k - |b| - 1];
    assert a == s[..|a|] && b == s[..|b|] && x == s[|a| + 1..] && y == s[|b| + 1..];
  }

  lemma {:induction false} JoinedInjective(a: string, f: seq<string>, b: string, g: seq<string>)
    requires |f| == |g| && Joined(a, f) == Joined(b, g)
    requires forall i :: 0 <= i < |f| ==> NoColon(f[i]) && NoColon(g[i])
    ensures a == b && f == g
  {
    if f != [] {
      var n := |f| - 1;
      LastFieldIsUnique(Joined(a, f[..n]), f[n], Joined(b, g[..n]), g[n]);
      JoinedInjective(a, f[..n], b, g[..n]);
      assert f == f[..n] + [f[n]] && g == g[..n] + [g[n]];
    }
  }

  // ---------- The keys ----------

  function ModelKey(id: string, path: string): string { id + ":" + path }

  /** `longer` is `shorter`, a colon and the beginning of the shorter one's path. */
  ghost predicate Overlaps(shorter: string, path: string, longer: string, otherPath: string) {
    exists middle: string :: longer == shorter + (":" + middle) && path == middle + (":" + otherPath)
  }

  /** Two models share a key exactly when they are the same or one identifier swallows, behind a
      colon, the beginning of the other's path. */
  lemma ModelKeysCollide(id1: string, path1: string, id2: string, path2: string)
    requires |id1| <= |id2|
    ensures ModelKey(id1, path1) == ModelKey(id2, path2) <==>
      (id1 == id2 && path1 == path2) || Overlaps(id1, path1, id2, path2)
  {
    if Overlaps(id1, path1, id2, path2) {
      OverlapCollides(id1, path1, id2, path2);
    } else if ModelKey(id1, path1) == ModelKey(id2, path2) {
      SplitKeys(id1, path1, id2, path2);
    }
  }

  lemma OverlapCollides(id1: string, path1: string, id2: string, path2: string)
    requires Overlaps(id1, path1, id2, path2)
    ensures ModelKey(id1, path1) == ModelKey(id2, path2) && !NoColon(id2)
  {
    var middle :| id2 == id1 + (":" + middle) && path1 == middle + (":" + path2);
    assert id2[|id1|] == ':';
    assert ModelKey(id1, path1) == id1 + ":" + middle + ":" + path2 == ModelKey(id2, path2);
  }

  lemma SplitKeys(id1: string, path1: string, id2: string, path2: string)
    requires |id1| <= |id2| && ModelKey(id1, path1) == ModelKey(id2, path2)
    ensures (id1 == id2 && path1 == path2) || Overlaps(id1, path1, id2, path2)
  {
    var s := ModelKey(id1, path1);
    var n, m := |id1|, |id2|;
    assert id1 == s[..n] && path1 == s[n + 1..] && s[n] == ':';
    assert id2 == s[..m] && path2 == s[m + 1..] && s[m] == ':';
    if n < m {
      var middle := s[n + 1..m];
      assert id2 == id1 + (":" + middle);
      assert path1 == middle + (":" + path2);
    }
  }

  /** So identifiers without a colon keep the keys of different models apart. */
  lemma ModelKeyInjective(id1: string, path1: string, id2: string, path2: string)
    requires NoColon(id1) && NoColon(id2) && ModelKey(id1, path1) == ModelKey(id2, path2)
    ensures id1 == id2 && path1 == path2
  {
    if Overlaps(id1, path1, id2, path2) {
      OverlapCollides(id1, path1, id2, path2);
    } else if Overlaps(id2, path2, id1, path1) {
      OverlapCollides(id2, path2, id1, path1);
    } else if |id1| <= |id2| {
      SplitKeys(id1, path1, id2, path2);
    } else {
      SplitKeys(id2, path2, id1, path1);
    }
  }

  /** An identifier with a colon can take another model's key. */
  lemma ModelKeyIsAmbiguous()
    ensures ModelKey("a:b", "c") == ModelKey("a", "b:c")
  {
    assert ModelKey("a:b", "c") == "a:b:c" == ModelKey("a", "b:c");
  }

  function ConfigFields(contextLength: nat, c: Config): seq<string> {
    [Decimal(contextLength), Decimal(c.generation), Decimal(c.batch), Decimal(c.logical), Decimal(c.physical)]
  }

  lemma ConfigFieldsInjective(n1: nat, c1: Config, n2: nat, c2: Config)
    requires ConfigFields(n1, c1) == ConfigFields(n2, c2)
    ensures n1 == n2 && c1 == c2
  {
    var f, g := ConfigFields(n1, c1), ConfigFields(n2, c2);
    assert f[0] == g[0] && f[1] == g[1] && f[2] == g[2] && f[3] == g[3] && f[4] == g[4];
    DecimalInjective(n1, n2);
    DecimalInjective(c1.generation, c2.generation);
    DecimalInjective(c1.batch, c2.batch);
    DecimalInjective(c1.logical, c2.logical);
    DecimalInjective(c1.physical, c2.physical);
  }

  function PromptKey(h: Hashes, modelKey: string, contextLength: nat, c: Config, prefix: string): string {
    Joined(modelKey, ConfigFields(contextLength, c) + [Decimal(h.text(prefix))])
  }

  /** A 64-bit number, least significant byte first. */
  function LittleEndian(n: nat, width: nat): (s: seq<Byte>)
    ensures |s| == width
  {
    if width == 0 then [] else [n % 256] + LittleEndian(n / 256, width - 1)
  }

  function Power256(width: nat): nat { if width == 0 then 1 else 256 * Power256(width - 1) }

  lemma {:induction false} LittleEndianInjective(a: nat, b: nat, width: nat)
    requires a < Power256(width) && b < Power256(width)
    requires LittleEndian(a, width) == LittleEndian(b, width)
    ensures a == b
  {
    if width > 0 {
      var s, t := LittleEndian(a, width), LittleEndian(b, width);
      assert s[0] == t[0] && s[1..] == LittleEndian(a / 256, width - 1) && t[1..] == LittleEndian(b / 256, width - 1);
      LittleEndianInjective(a / 256, b / 256, width - 1);
    }
  }

  /** What is hashed for an input: the byte length of the prefix, the prefix, the suffix. */
  function InputDigestText(prefix: string, suffix: string): seq<Byte> {
    LittleEndian(|EncodeText(prefix)|, 8) + EncodeText(prefix) + EncodeText(suffix)
  }

  function InputKey(h: Hashes, modelKey: string, contextLength: nat, c: Config, prefix: string,
                    suffix: string): string {
    Joined(modelKey, ConfigFields(contextLength, c) + ["input", Hex(h.digest(InputDigestText(prefix, suffix)))])
  }

  lemma JoinedOneMore(head: string, fields: seq<string>, field: string)
    ensures Joined(head, fields + [field]) == Joined(head, fields) + ":" + field && Joined(head, []) == head
  {
    assert (fields + [field])[..|fields|] == fields;
  }

  /** The part that both keys share, as it reads. */
  lemma FieldsRead(head: string, n: nat, c: Config)
    ensures Joined(head, ConfigFields(n, c)) == head + ":" + Decimal(n) + ":" + Decimal(c.generation) + ":" +
      Decimal(c.batch) + ":" + Decimal(c.logical) + ":" + Decimal(c.physical)
  {
    hide Decimal, Joined;
    var g, b, l, p := Decimal(c.generation), Decimal(c.batch), Decimal(c.logical), Decimal(c.physical);
    JoinedOneMore(head, [], Decimal(n));
    JoinedOneMore(head, [Decimal(n)], g);
    JoinedOneMore(head, [Decimal(n), g], b);
    JoinedOneMore(head, [Decimal(n), g, b], l);
    JoinedOneMore(head, [Decimal(n), g, b, l], p);
    assert [] + [Decimal(n)] == [Decimal(n)] && [Decimal(n)] + [g] == [Decimal(n), g];
    assert [Decimal(n), g] + [b] == [Decimal(n), g, b] && [Decimal(n), g, b] + [l] == [Decimal(n), g, b, l];
    assert ConfigFields(n, c) == [Decimal(n), g, b, l] + [p];
  }

  /** Both keys as they read. */
  lemma KeysRead(h: Hashes, id: string, path: string, n: nat, c: Config, prefix: string, suffix: string)
    ensures var model := id + ":" + path + ":" + Decimal(n) + ":" + Decimal(c.generation) + ":" +
      Decimal(c.batch) + ":" + Decimal(c.logical) + ":" + Decimal(c.physical);
      && PromptKey(h, ModelKey(id, path), n, c, prefix) == model + ":" + Decimal(h.text(prefix))
      && InputKey(h, ModelKey(id, path), n, c, prefix, suffix) ==
        model + ":" + "input" + ":" + Hex(h.digest(InputDigestText(prefix, suffix)))
  {
    hide Decimal, Joined, Hex, InputDigestText, ConfigFields;
    var model, fields := ModelKey(id, path), ConfigFields(n, c);
    var digest := Hex(h.digest(InputDigestText(prefix, suffix)));
    FieldsRead(model, n, c);
    JoinedOneMore(model, fields, Decimal(h.text(prefix)));
    JoinedOneMore(model, fields, "input");
    JoinedOneMore(model, fields + ["input"], digest);
    assert fields + ["input"] + [digest] == fields + ["input", digest];
  }

  /** The length prefix keeps the border between prefix and suffix. */
  lemma InputDigestTextInjective(p1: string, s1: string, p2: string, s2: string)
    requires |EncodeText(p1)| < Power256(8) && |EncodeText(p2)| < Power256(8)
    requires InputDigestText(p1, s1) == InputDigestText(p2, s2)
    ensures p1 == p2 && s1 == s2
  {
    var a, b := InputDigestText(p1, s1), InputDigestText(p2, s2);
    var n1, n2 := |EncodeText(p1)|, |EncodeText(p2)|;
    assert a[..8] == LittleEndian(n1, 8) && b[..8] == LittleEndian(n2, 8);
    LittleEndianInjective(n1, n2, 8);
    assert a[8..8 + n1] == EncodeText(p1) && b[8..8 + n2] == EncodeText(p2);
    assert a[8 + n1..] == EncodeText(s1) && b[8 + n2..] == EncodeText(s2);
    EncodedTextIsValid(p1);
    EncodedTextIsValid(p2);
    EncodedTextIsValid(s1);
    EncodedTextIsValid(s2);
  }

  /** Keys with equally many fields after the configuration agree field by field. */
  lemma KeyFieldsInjective(m1: string, n1: nat, c1: Config, f: seq<string>, m2: string, n2: nat, c2: Config,
                           g: seq<string>)
    requires |f| == |g| && forall i :: 0 <= i < |f| ==> NoColon(f[i]) && NoColon(g[i])
    requires Joined(m1, ConfigFields(n1, c1) + f) == Joined(m2, ConfigFields(n2, c2) + g)
    ensures m1 == m2 && n1 == n2 && c1 == c2 && f == g
  {
    var a, b := ConfigFields(n1, c1), ConfigFields(n2, c2);
    JoinedInjective(m1, a + f, m2, b + g);
    assert a == (a + f)[..5] && b == (b + g)[..5];
    assert f == (a + f)[5..] && g == (b + g)[5..];
    ConfigFieldsInjective(n1, c1, n2, c2);
  }

  /** Equal prefix-cache keys mean the same model key, context length, configuration and prefix. */
  lemma PromptKeyInjective(h: Hashes, m1: string, n1: nat, c1: Config, p1: string,
                           m2: string, n2: nat, c2: Config, p2: string)
    requires CollisionFree(h)
    requires PromptKey(h, m1, n1, c1, p1) == PromptKey(h, m2, n2, c2, p2)
    ensures m1 == m2 && n1 == n2 && c1 == c2 && p1 == p2
  {
    hide Decimal, ConfigFields, Joined;
    var f, g := [Decimal(h.text(p1))], [Decimal(h.text(p2))];
    KeyFieldsInjective(m1, n1, c1, f, m2, n2, c2, g);
    assert f[0] == g[0];
    DecimalInjective(h.text(p1), h.text(p2));
  }

  /** Equal input keys mean the same request text as well. */
  lemma InputKeyInjective(h: Hashes, m1: string, n1: nat, c1: Config, p1: string, s1: string,
                          m2: string, n2: nat, c2: Config, p2: string, s2: string)
    requires CollisionFree(h)
    requires |EncodeText(p1)| < Power256(8) && |EncodeText(p2)| < Power256(8)
    requires InputKey(h, m1, n1, c1, p1, s1) == InputKey(h, m2, n2, c2, p2, s2)
    ensures m1 == m2 && n1 == n2 && c1 == c2 && p1 == p2 && s1 == s2
  {
    hide Hex, InputDigestText, EncodeText, ConfigFields, Joined, Power256;
    var d1, d2 := h.digest(InputDigestText(p1, s1)), h.digest(InputDigestText(p2, s2));
    var f, g := ["input", Hex(d1)], ["input", Hex(d2)];
    KeyFieldsInjective(m1, n1, c1, f, m2, n2, c2, g);
    assert f[1] == g[1];
    HexInjective(d1, d2);
    InputDigestTextInjective(p1, s1, p2, s2);
  }

  /** In terms of the models themselves: equal input keys mean the same request, unless one model's
      identifier swallows part of the other's path. */
  lemma InputKeysOfRequests(h: Hashes, id1: string, path1: string, n1: nat, c1: Config, p1: string, s1: string,
                            id2: string, path2: string, n2: nat, c2: Config, p2: string, s2: string)
    requires CollisionFree(h)
    requires |EncodeText(p1)| < Power256(8) && |EncodeText(p2)| < Power256(8)
    ensures InputKey(h, ModelKey(id1, path1), n1, c1, p1, s1) == InputKey(h, ModelKey(id2, path2), n2, c2, p2, s2) <==>
      && n1 == n2 && c1 == c2 && p1 == p2 && s1 == s2
      && ((id1 == id2 && path1 == path2) || Overlaps(id1, path1, id2, path2) || Overlaps(id2, path2, id1, path1))
  {
    var m1, m2 := ModelKey(id1, path1), ModelKey(id2, path2);
    if |id1| <= |id2| {
      ModelKeysCollide(id1, path1, id2, path2);
    } else {
      ModelKeysCollide(id2, path2, id1, path1);
    }
    if Overlaps(id1, path1, id2, path2) {
      OverlapCollides(id1, path1, id2, path2);
    }
    if Overlaps(id2, path2, id1, path1) {
      OverlapCollides(id2, path2, id1, path1);
    }
    hide ModelKey, Overlaps, InputKey, EncodeText, Power256;
    if InputKey(h, m1, n1, c1, p1, s1) == InputKey(h, m2, n2, c2, p2, s2) {
      InputKeyInjective(h, m1, n1, c1, p1, s1, m2, n2, c2, p2, s2);
    }
  }
}
