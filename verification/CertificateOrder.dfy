/**
 An injective ranking of certificate ids exists: every id has a number of its own. The results
 that take such a ranking as a parameter are therefore about something.
 */
module CertificateOrder {
  import opened Membership

  /** A pairing of two naturals into one. */
  function Pair(a: nat, b: nat): nat {
    (a + b) * (a + b) + a
  }

  lemma {:induction false} Squares(m: nat, n: nat)
    requires m < n
    ensures m * m + m < n * n
  {
    assert n * n == (n - 1) * (n - 1) + 2 * (n - 1) + 1;
    if m < n - 1 { Squares(m, n - 1); }
  }

  lemma PairsDiffer(a: nat, b: nat, c: nat, d: nat)
    requires Pair(a, b) == Pair(c, d)
    ensures a == c && b == d
  {
    if a + b < c + d {
      Squares(a + b, c + d);
    } else if c + d < a + b {
      Squares(c + d, a + b);
    }
  }

  function Code(s: seq<nat>): nat {
    if s == [] then 0 else 1 + Pair(s[0], Code(s[1..]))
  }

  lemma {:induction false} CodesDiffer(a: seq<nat>, b: seq<nat>)
    requires Code(a) == Code(b)
    ensures a == b
  {
    if a != [] && b != [] {
      PairsDiffer(a[0], Code(a[1..]), b[0], Code(b[1..]));
      CodesDiffer(a[1..], b[1..]);
      assert a == [a[0]] + a[1..] && b == [b[0]] + b[1..];
    }
  }

  function Natural(x: int): nat {
    if x >= 0 then 2 * x else -2 * x - 1
  }

  function Characters(name: string): seq<nat> {
    seq(|name|, i requires 0 <= i < |name| => name[i] as nat)
  }

  function Naturals(xs: seq<int>): seq<nat> {
    seq(|xs|, i requires 0 <= i < |xs| => Natural(xs[i]))
  }

  lemma NamesDiffer(a: string, b: string)
    requires Characters(a) == Characters(b)
    ensures a == b
  {
    assert |Characters(a)| == |Characters(b)|;
    forall i | 0 <= i < |a| ensures a[i] == b[i] { assert Characters(a)[i] == Characters(b)[i]; }
  }

  lemma ListsDiffer(a: seq<int>, b: seq<int>)
    requires Naturals(a) == Naturals(b)
    ensures a == b
  {
    assert |Naturals(a)| == |Naturals(b)|;
    forall i | 0 <= i < |a| ensures a[i] == b[i] { assert Naturals(a)[i] == Naturals(b)[i]; }
  }

  function TypeNumber(t: DeviceType): nat {
    if t.Unspecified? then 0 else if t.Android? then 1 else 2
  }

  function Fields(c: Certificate): seq<nat> {
    [c.workspace, c.device, TypeNumber(c.deviceType), Code(Characters(c.displayName)), Code(Naturals(c.roles)),
     c.identityKey, Natural(c.issuedAt), Natural(c.expiresAt), Natural(c.membershipEpoch)]
  }

  lemma FieldsDiffer(a: Certificate, b: Certificate)
    requires Fields(a) == Fields(b)
    ensures a == b
  {
    var f, g := Fields(a), Fields(b);
    assert f[0] == g[0] && f[1] == g[1] && f[2] == g[2] && f[3] == g[3] && f[4] == g[4];
    assert f[5] == g[5] && f[6] == g[6] && f[7] == g[7] && f[8] == g[8];
    CodesDiffer(Characters(a.displayName), Characters(b.displayName));
    NamesDiffer(a.displayName, b.displayName);
    CodesDiffer(Naturals(a.roles), Naturals(b.roles));
    ListsDiffer(a.roles, b.roles);
  }

  function Number(id: CertificateId): int {
    match id
    case ZeroId => -1
    case IdOf(c) => Code(Fields(c))
  }

  /** The numbering is a ranking of all certificate ids. */
  lemma RankingExists()
    ensures Injective(Number)
  {
    forall a, b | Number(a) == Number(b) ensures a == b {
      if a.IdOf? && b.IdOf? {
        CodesDiffer(Fields(a.certificate), Fields(b.certificate));
        FieldsDiffer(a.certificate, b.certificate);
      }
    }
  }
}
