/**
 * SocialStream: what a follower watches on a social network — the network
 * connector, the kind of search and the search text. Two streams are equal
 * when all three are; they hash from the three, and they are ordered by the
 * connector's name, then the kind of search, then the search text.
 */
module Streams {
  import opened Strings

  /**
   * A social network connector. Connectors keep Object's identity equality;
   * `name` is what toString returns and `hash` what hashCode returns.
   */
  class Connector {
    const name: string
    const hash: int

    constructor (name: string, hash: int)
      ensures this.name == name && this.hash == hash
    {
      this.name := name;
      this.hash := hash;
    }
  }

  /**
   * SearchMethod. The enum's declaration is not part of this model; its
   * constants are taken to be declared in the order the stream task's switch
   * lists them.
   */
  datatype SearchMethod = Search | Tag | User

  /** Enum.ordinal */
  function Ordinal(t: SearchMethod): int {
    match t
    case Search => 0
    case Tag => 1
    case User => 2
  }

  datatype SocialStream = SocialStream(connector: Connector, kind: SearchMethod, search: string)

  /** The argument of equals: a SocialStream, or any other object (null included). */
  datatype Other = AStream(stream: SocialStream) | NotAStream

  /** equals: another SocialStream with the same connector, kind and search text. */
  predicate Equals(a: SocialStream, o: Other)
    ensures Equals(a, o) <==> o == AStream(a)
  {
    o.AStream? && a.connector == o.stream.connector && a.kind == o.stream.kind && a.search == o.stream.search
  }

  /** The code of each character, as String.hashCode reads it. */
  function Codes(s: string): (cs: seq<int>)
    ensures |cs| == |s| && forall i :: 0 <= i < |s| ==> cs[i] == s[i] as int
  {
    seq(|s|, i requires 0 <= i < |s| => s[i] as int)
  }

  /** String.hashCode: h = 31 * h + c over the characters, in `int` arithmetic. */
  function StringHash(s: string): (h: int)
    ensures IsInt(h)
    ensures s == [] ==> h == 0
    decreases |s|
  {
    if s == [] then 0 else Wrap32(31 * StringHash(s[..|s| - 1]) + s[|s| - 1] as int)
  }

  /** String.hashCode is the polynomial in 31 of the character codes, wrapped to an `int`. */
  lemma {:induction false} StringHashPolynomial(s: string)
    ensures StringHash(s) == Wrap32(Horner(31, Codes(s)))
    decreases |s|
  {
    if s == [] {
      assert Wrap32(0) == 0;
    } else {
      var p := s[..|s| - 1];
      StringHashPolynomial(p);
      assert Codes(s)[..|s| - 1] == Codes(p);
      HashStep(Horner(31, Codes(p)), 31, s[|s| - 1] as int);
    }
  }

  /** One step of a hash, h = m * h + x, gives the same `int` from a wrapped h. */
  lemma HashStep(h: int, m: int, x: int)
    ensures Wrap32(m * Wrap32(h) + x) == Wrap32(h * m + x)
  {
    WrapMul(h, m);
    assert m * Wrap32(h) == Wrap32(h) * m;
    WrapAdd(Wrap32(h) * m, x);
    WrapAdd(h * m, x);
  }

  /**
   * hashCode: 7, then hash = 89 * hash + Objects.hashCode(field) for the
   * connector, the kind and the search text. The enum's hashCode is
   * Object's identity hash, so it is a parameter.
   */
  function Hash(a: SocialStream, kindHash: SearchMethod -> int): (h: int)
    ensures IsInt(h)
  {
    var h1 := Wrap32(89 * 7 + a.connector.hash);
    var h2 := Wrap32(89 * h1 + kindHash(a.kind));
    Wrap32(89 * h2 + StringHash(a.search))
  }

  /** Equal streams hash equally. */
  lemma EqualsSameHash(a: SocialStream, b: SocialStream, kindHash: SearchMethod -> int)
    requires Equals(a, AStream(b))
    ensures Hash(a, kindHash) == Hash(b, kindHash)
  {
  }

  /** hashCode is the polynomial 7·89³ + c·89² + k·89 + s of the three field hashes, wrapped to an `int`. */
  lemma HashPolynomial(a: SocialStream, kindHash: SearchMethod -> int)
    ensures Hash(a, kindHash) == Wrap32(Horner(89, [7, a.connector.hash, kindHash(a.kind), StringHash(a.search)]))
  {
    var c, k, s := a.connector.hash, kindHash(a.kind), StringHash(a.search);
    var xs := [7, c, k, s];
    var p1 := 7 * 89 + c;
    var p2 := p1 * 89 + k;
    assert Horner(89, xs[..2]) == p1 by {
      assert xs[..2][..1] == [7] && [7][..0] == [];
    }
    assert Horner(89, xs[..3]) == p2 by {
      assert xs[..3][..2] == xs[..2];
    }
    assert Horner(89, xs) == p2 * 89 + s by {
      assert xs[..3] == xs[..|xs| - 1];
    }
    HashStep(p1, 89, k);
    HashStep(p2, 89, s);
  }

  /**
   * compareTo: streams on different connectors compare by the connectors'
   * names; then by the kind's declaration order; then by the search text.
   */
  function CompareTo(a: SocialStream, b: SocialStream): (r: int)
    ensures r == 0 ==> a.connector.name == b.connector.name
    ensures r == 0 && a.connector == b.connector ==> a.kind == b.kind && a.search == b.search
  {
    CompareZeroIffEqual(a.connector.name, b.connector.name);
    CompareZeroIffEqual(a.search, b.search);
    if a.connector != b.connector then Compare(a.connector.name, b.connector.name)
    else
      var c := Ordinal(a.kind) - Ordinal(b.kind);
      if c != 0 then c else Compare(a.search, b.search)
  }

  /** A stream compares equal to itself. */
  lemma CompareToSelf(a: SocialStream)
    ensures CompareTo(a, a) == 0
  {
    CompareZeroIffEqual(a.search, a.search);
  }

  /** Swapping the streams swaps the sign of the comparison. */
  lemma CompareToAntisymmetric(a: SocialStream, b: SocialStream)
    ensures CompareTo(a, b) < 0 <==> CompareTo(b, a) > 0
  {
    CompareAntisymmetric(a.connector.name, b.connector.name);
    CompareAntisymmetric(a.search, b.search);
  }

  /**
   * compareTo agrees with equals as long as different connectors have
   * different names: it is 0 exactly for equal streams.
   */
  lemma CompareToZeroIffEquals(a: SocialStream, b: SocialStream)
    requires a.connector != b.connector ==> a.connector.name != b.connector.name
    ensures CompareTo(a, b) == 0 <==> Equals(a, AStream(b))
  {
    CompareZeroIffEqual(a.connector.name, b.connector.name);
    CompareZeroIffEqual(a.search, b.search);
  }

  /** Two connectors with the same name make different streams compare 0. */
  lemma SameNameComparesEqual(a: SocialStream, b: SocialStream)
    requires a.connector != b.connector && a.connector.name == b.connector.name
    ensures CompareTo(a, b) == 0 && !Equals(a, AStream(b))
  {
    CompareZeroIffEqual(a.connector.name, b.connector.name);
  }
}
