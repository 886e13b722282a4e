/** The multicast group of a topic (components/mpubsub/topic_hash.cpp topic_to_group, bridges/mqtt-go/wire.go). */
module TopicHash {
  import opened Octets
  import opened Fips180
  import Sha256Stream

  type Topic = seq<byte>

  datatype Scope = LinkLocal | SiteLocal | OrgLocal
  {
    function Nibble(): byte {
      match this
      case LinkLocal => 2
      case SiteLocal => 5
      case OrgLocal => 8
    }
  }

  type GroupAddr = g: seq<byte> | |g| == 16 witness seq(16, _ => 0)

  /** Sha256::hash; below 2^61 bytes it is the digest of FIPS 180-4. */
  function Hash(m: seq<byte>): (d: seq<byte>)
    ensures |d| == 32
  {
    Bytes(Words(HashBlocks(Pad(m, 8 * |m| % TWO64))))
  }

  lemma HashIsDigest(m: seq<byte>)
    requires 8 * |m| < TWO64
    ensures Hash(m) == Digest(m)
  {
    hide HashBlocks, Bytes, Pad;
  }

  /** The transient multicast address of a scope that carries the first 14 bytes of the topic's digest. */
  function GroupOf(topic: Topic, scope: Scope): GroupAddr {
    hide Hash;
    [0xFF, 0x10 + scope.Nibble()] + Hash(topic)[..14]
  }

  method HashOnce(data: seq<byte>) returns (out: seq<byte>)
    ensures out == Hash(data)
  {
    hide HashBlocks, Bytes, Pad;
    var h := new Sha256Stream.Sha256();
    h.Update(data);
    assert h.message == [] + data == data;
    out := h.Finalize();
  }

  method TopicToGroup(topic: Topic, scope: Scope) returns (addr: array<byte>)
    ensures fresh(addr) && addr[..] == GroupOf(topic, scope)
  {
    hide Hash;
    var digest := HashOnce(topic);
    addr := new byte[16](_ => 0);
    addr[0] := 0xFF;
    addr[1] := 0x10 + scope.Nibble();
    for i := 0 to 14
      invariant addr[..2 + i] == [0xFF, 0x10 + scope.Nibble()] + digest[..i]
    {
      addr[2 + i] := digest[i];
    }
    assert addr[..] == addr[..16];
  }
}
