/**
 The associated data that binds a ciphertext to its location. A Go string is
 modelled as a Dafny string with one character per byte.
 */
module Aad {
  import opened Wrappers

  const KV_BLOCK := "kv"
  const EPISODIC_BLOCK := "episodic"

  /** Base-128 varint, least significant group first, high bit set on every byte but the last. */
  function Uvarint(n: nat): (s: string)
    ensures s != []
  {
    if n < 128 then [n as char] else [(n % 128 + 128) as char] + Uvarint(n / 128)
  }

  function Part(s: string): string
  {
    Uvarint(|s|) + s
  }

  function ValueAad(namespace: string, key: string): string
  {
    Part(KV_BLOCK) + Part(namespace) + Part(key)
  }

  function PayloadAad(namespace: string): string
  {
    Part(EPISODIC_BLOCK) + Part(namespace)
  }

  function QualifyNamespace(tenant: string, namespace: string, isolate: bool): string
  {
    if isolate then tenant + [TENANT_SEP] + namespace else namespace
  }

  // ----- A decoder -----

  function ReadUvarint(s: string): (r: Option<(nat, string)>)
    ensures r.Some? ==> |r.value.1| < |s|
  {
    if s == [] then None
    else if s[0] as int < 128 then Some((s[0] as int, s[1..]))
    else
      match ReadUvarint(s[1..])
      case None => None
      case Some((n, rest)) => Some((s[0] as int - 128 + 128 * n, rest))
  }

  function ReadPart(s: string): (r: Option<(string, string)>)
    ensures r.Some? ==> |r.value.1| < |s|
  {
    match ReadUvarint(s)
    case None => None
    case Some((n, rest)) => if n <= |rest| then Some((rest[..n], rest[n..])) else None
  }

  /** All the parts of a string of parts; None when it is not one. */
  function ReadParts(s: string): Option<seq<string>>
    decreases |s|
  {
    if s == [] then Some([])
    else
      match ReadPart(s)
      case None => None
      case Some((part, rest)) =>
        match ReadParts(rest)
        case None => None
        case Some(parts) => Some([part] + parts)
  }

  lemma {:induction false} UvarintReads(n: nat, rest: string)
    ensures ReadUvarint(Uvarint(n) + rest) == Some((n, rest))
  {
    if n < 128 {
      assert (Uvarint(n) + rest)[1..] == rest;
    } else {
      UvarintReads(n / 128, rest);
      assert (Uvarint(n) + rest)[1..] == Uvarint(n / 128) + rest;
    }
  }

  lemma PartReads(part: string, rest: string)
    ensures ReadPart(Part(part) + rest) == Some((part, rest))
  {
    UvarintReads(|part|, part + rest);
    assert Part(part) + rest == Uvarint(|part|) + (part + rest);
  }

  lemma ConsReads(part: string, rest: string, parts: seq<string>)
    requires ReadParts(rest) == Some(parts)
    ensures ReadParts(Part(part) + rest) == Some([part] + parts)
  {
    PartReads(part, rest);
  }

  lemma LastReads(part: string)
    ensures ReadParts(Part(part)) == Some([part])
  {
    PartReads(part, []);
    assert Part(part) + [] == Part(part);
    assert [part] + [] == [part];
  }

  /** The decoder recovers block, namespace and key from a kv AAD. */
  lemma ValueAadReads(namespace: string, key: string)
    ensures ReadParts(ValueAad(namespace, key)) == Some([KV_BLOCK, namespace, key])
  {
    LastReads(key);
    ConsReads(namespace, Part(key), [key]);
    assert [namespace] + [key] == [namespace, key];
    ConsReads(KV_BLOCK, Part(namespace) + Part(key), [namespace, key]);
    assert ValueAad(namespace, key) == Part(KV_BLOCK) + (Part(namespace) + Part(key));
    assert [KV_BLOCK] + [namespace, key] == [KV_BLOCK, namespace, key];
  }

  lemma PayloadAadReads(namespace: string)
    ensures ReadParts(PayloadAad(namespace)) == Some([EPISODIC_BLOCK, namespace])
  {
    LastReads(namespace);
    ConsReads(EPISODIC_BLOCK, Part(namespace), [namespace]);
    assert [EPISODIC_BLOCK] + [namespace] == [EPISODIC_BLOCK, namespace];
  }

  /** Distinct locations never share associated data, within a block or across blocks. */
  lemma LocationsAreBound(ns1: string, key1: string, ns2: string, key2: string)
    ensures ValueAad(ns1, key1) == ValueAad(ns2, key2) <==> ns1 == ns2 && key1 == key2
    ensures PayloadAad(ns1) == PayloadAad(ns2) <==> ns1 == ns2
    ensures ValueAad(ns1, key1) != PayloadAad(ns2)
  {
    ValueAadReads(ns1, key1);
    ValueAadReads(ns2, key2);
    PayloadAadReads(ns1);
    PayloadAadReads(ns2);
    var a, b := [KV_BLOCK, ns1, key1], [KV_BLOCK, ns2, key2];
    assert a == b ==> a[1] == b[1] && a[2] == b[2];
    var c, d := [EPISODIC_BLOCK, ns1], [EPISODIC_BLOCK, ns2];
    assert c == d ==> c[1] == d[1];
    assert |a| != |d|;
  }

  // ----- Tenants -----

  /**
   Two tenants can be given one storage namespace exactly when one of them, closed by the separator, begins the other.
   */
  lemma TenantsMeet(t1: string, t2: string)
    ensures (exists n1, n2 :: QualifyNamespace(t1, n1, true) == QualifyNamespace(t2, n2, true)) <==>
              t1 + [TENANT_SEP] <= t2 + [TENANT_SEP] || t2 + [TENANT_SEP] <= t1 + [TENANT_SEP]
  {
    var a, b := t1 + [TENANT_SEP], t2 + [TENANT_SEP];
    if a <= b {
      assert QualifyNamespace(t1, b[|a|..], true) == QualifyNamespace(t2, "", true);
    }
    if b <= a {
      assert QualifyNamespace(t1, "", true) == QualifyNamespace(t2, a[|b|..], true);
    }
    forall n1, n2 | QualifyNamespace(t1, n1, true) == QualifyNamespace(t2, n2, true)
      ensures a <= b || b <= a
    {
      assert QualifyNamespace(t1, n1, true)[..|a|] == a;
      assert QualifyNamespace(t2, n2, true)[..|b|] == b;
    }
  }

  /** For tenants free of the separator, tenant, namespace and key are all bound. */
  lemma TenantsAreBound(t1: string, n1: string, k1: string, t2: string, n2: string, k2: string)
    requires TENANT_SEP !in t1 && TENANT_SEP !in t2
    ensures ValueAad(QualifyNamespace(t1, n1, true), k1) == ValueAad(QualifyNamespace(t2, n2, true), k2) <==>
              t1 == t2 && n1 == n2 && k1 == k2
  {
    var q1, q2 := QualifyNamespace(t1, n1, true), QualifyNamespace(t2, n2, true);
    LocationsAreBound(q1, k1, q2, k2);
    TenantReads(t1, n1);
    TenantReads(t2, n2);
  }

  /** The part of a qualified namespace before its first separator, and the part after. */
  function SplitTenant(s: string): (string, string)
  {
    if s == [] || s[0] == TENANT_SEP then ([], if s == [] then [] else s[1..])
    else
      var (t, n) := SplitTenant(s[1..]);
      ([s[0]] + t, n)
  }

  lemma {:induction false} TenantReads(t: string, n: string)
    requires TENANT_SEP !in t
    ensures SplitTenant(QualifyNamespace(t, n, true)) == (t, n)
  {
    if t != [] {
      assert QualifyNamespace(t, n, true)[1..] == QualifyNamespace(t[1..], n, true);
      TenantReads(t[1..], n);
      assert [t[0]] + t[1..] == t;
    } else {
      assert QualifyNamespace(t, n, true)[1..] == n;
    }
  }

  /** The premise is needed: a tenant holding the separator reaches another tenant's storage. */
  lemma SeparatorInTenantCollides()
    ensures QualifyNamespace("a" + [TENANT_SEP] + "b", "c", true) ==
              QualifyNamespace("a", "b" + [TENANT_SEP] + "c", true)
  {
    assert "a" + [TENANT_SEP] + "b" + [TENANT_SEP] + "c" == "a" + [TENANT_SEP] + ("b" + [TENANT_SEP] + "c");
  }
}
