/**
 * The sending half of io/conn.c: each send is a loop of operations the kernel may complete short.
 * What it takes each time is a script fixed in advance and otherwise arbitrary.
 */
module ConnOutput {
  import opened Bytes

  const EPIPE: int := 32
  const INT_MAX: int := 0x7FFF_FFFF
  const UINT32_MAX: int := 0xFFFF_FFFF

  /** A size_t returned through an int. */
  function ToInt(n: nat): (i: int)
    ensures n <= INT_MAX <==> i == n
  {
    var m := n % 0x1_0000_0000;
    if m <= INT_MAX then m else m - 0x1_0000_0000
  }

  function Min(a: nat, b: nat): nat {
    if a < b then a else b
  }

  /** The pieces of a vector that are left once n bytes of it went. */
  function Skip(iov: seq<bytes>, n: nat): (rest: seq<bytes>)
    decreases |iov|
  {
    if iov == [] then []
    else if n >= |iov[0]| then Skip(iov[1..], n - |iov[0]|)
    else [iov[0][n..]] + iov[1..]
  }

  lemma {:induction false} SkipDrops(iov: seq<bytes>, n: nat)
    requires n <= |Flatten(iov)|
    ensures Flatten(Skip(iov, n)) == Flatten(iov)[n..]
    ensures 0 < n ==> |Flatten(Skip(iov, n))| < |Flatten(iov)|
    ensures Skip(iov, n) == [] || Flatten(Skip(iov, n)) != []
    decreases |iov|
  {
    if iov != [] {
      var f := Flatten(iov[1..]);
      if n >= |iov[0]| {
        SkipDrops(iov[1..], n - |iov[0]|);
        assert (iov[0] + f)[n..] == f[n - |iov[0]|..];
      } else {
        var rest := [iov[0][n..]] + iov[1..];
        assert rest[1..] == iov[1..];
        assert (iov[0] + f)[n..] == iov[0][n..] + f;
      }
    }
  }

  /** What an operation that the kernel would complete with x takes of n bytes: what it says, of no more than an int. */
  function Takes(x: int, n: nat): (k: int)
    ensures k <= n && (x > 0 && n > 0 ==> k > 0)
  {
    var most := if n <= INT_MAX then n else INT_MAX;
    if x <= most then x else most
  }

  /**
   * n bytes go out whole: one operation after the other takes some, however few, until none are
   * left, and none of them fails before.
   */
  predicate Goes(script: seq<int>, n: nat)
    decreases |script|
  {
    n == 0 || (script != [] && script[0] > 0 && Goes(script[1..], n - Takes(script[0], n)))
  }

  /** The operations left when they have gone. */
  function OpsLeft(script: seq<int>, n: nat): seq<int>
    decreases |script|
  {
    if n == 0 || script == [] then script
    else if script[0] <= 0 then script[1..]
    else OpsLeft(script[1..], n - Takes(script[0], n))
  }

  /** As many operations that take anything as there are bytes are always enough. */
  lemma {:induction false} EnoughGoes(script: seq<int>, n: nat)
    requires n <= |script| && forall i :: 0 <= i < n ==> script[i] > 0
    ensures Goes(script, n)
    decreases |script|
  {
    if n > 0 {
      EnoughGoes(script[1..], n - Takes(script[0], n));
    }
  }

  /** ... and one that fails before they took all is enough for them not to go out. */
  lemma {:induction false} FailsBefore(script: seq<int>, n: nat, k: nat)
    requires k < |script| && script[k] <= 0 && Sum(script[..k]) < n
    requires forall i :: 0 <= i < k ==> script[i] > 0
    ensures !Goes(script, n)
    decreases k
  {
    if k > 0 {
      assert script[..k][0] == script[0] && script[..k][1..] == script[1..][..k - 1];
      FailsBefore(script[1..], n - Takes(script[0], n), k - 1);
    }
  }

  function Sum(xs: seq<int>): int {
    if xs == [] then 0 else xs[0] + Sum(xs[1..])
  }

  /** How many operations in a row will take all they are given. */
  function Grants(script: seq<int>): nat {
    if script == [] || script[0] < INT_MAX then 0 else 1 + Grants(script[1..])
  }

  class Sender {
    /** What each send operation completes with: bytes taken, or an error. */
    var script: seq<int>
    /** What the peer was sent. */
    ghost var wire: bytes

    constructor (script: seq<int>)
      ensures this.script == script && wire == []
    {
      this.script := script;
      wire := [];
    }

    /**
     * One send operation over data: an error, nothing taken, or a non-empty prefix. A script that
     * runs out is a peer that is gone.
     */
    method Op(data: bytes) returns (n: int)
      requires data != []
      modifies this
      ensures n == if old(script) == [] then -EPIPE else Takes(old(script)[0], |data|)
      ensures script == if old(script) == [] then [] else old(script)[1..]
      ensures wire == old(wire) + if n > 0 then data[..n] else []
    {
      if script == [] {
        return -EPIPE;
      }
      n := Takes(script[0], |data|);
      script := script[1..];
      if n > 0 {
        wire := wire + data[..n];
      }
    }

    /**
     * ioxd__conn_send: all of data, exactly if it goes, however short the operations are; its length
     * as an int, else an error and a prefix.
     */
    method Send(data: bytes) returns (rc: int)
      modifies this
      ensures old(wire) <= wire <= old(wire) + data
      ensures wire == old(wire) + data <==> Goes(old(script), |data|)
      ensures if Goes(old(script), |data|) then rc == ToInt(|data|) else rc < 0
      ensures script == OpsLeft(old(script), |data|)
      ensures Grants(old(script)) > 0 && 0 < |data| <= INT_MAX ==> rc == |data| && Grants(script) == Grants(old(script)) - 1
    {
      var sent := 0;
      while sent < |data|
        invariant 0 <= sent <= |data|
        invariant wire == old(wire) + data[..sent]
        invariant Goes(script, |data| - sent) <==> Goes(old(script), |data|)
        invariant OpsLeft(script, |data| - sent) == OpsLeft(old(script), |data|)
        invariant Grants(old(script)) > 0 && |data| <= INT_MAX ==>
          if sent == 0 then script == old(script) else sent == |data| && Grants(script) == Grants(old(script)) - 1
      {
        // The length of one operation is a uint32_t.
        var asked := if |data| - sent > UINT32_MAX then UINT32_MAX else |data| - sent;
        SameTake(script, |data| - sent, asked);
        var n := Op(data[sent..sent + asked]);
        if n < 0 {
          return n;
        }
        if n == 0 {
          return -EPIPE;
        }
        assert data[..sent + n] == data[..sent] + data[sent..sent + asked][..n];
        sent := sent + n;
      }
      assert data[..sent] == data;
      rc := ToInt(|data|);
    }

    /**
     * ioxd__conn_sendv: the pieces as one message, a short send moving the vector past what went:
     * all of them exactly if they go. A vector of empty pieces only is answered as a peer that is gone.
     */
    method SendV(iov: seq<bytes>) returns (rc: int)
      modifies this
      ensures old(wire) <= wire <= old(wire) + Flatten(iov)
      ensures wire == old(wire) + Flatten(iov) <==> Goes(old(script), |Flatten(iov)|)
      ensures rc == 0 <==> iov == [] || (Flatten(iov) != [] && Goes(old(script), |Flatten(iov)|))
      ensures rc <= 0 && (Flatten(iov) != [] || iov == [] ==> script == OpsLeft(old(script), |Flatten(iov)|))
    {
      var left := iov;
      ghost var all, sent: bytes := Flatten(iov), [];
      while left != []
        invariant all == sent + Flatten(left)
        invariant wire == old(wire) + sent
        invariant Goes(script, |Flatten(left)|) <==> Goes(old(script), |all|)
        invariant OpsLeft(script, |Flatten(left)|) == OpsLeft(old(script), |all|)
        invariant left == iov || (all != [] && (left != [] ==> Flatten(left) != []))
        decreases |Flatten(left)|, |left|
      {
        if Flatten(left) == [] {
          // Only empty pieces: the operation takes nothing.
          return -EPIPE;
        }
        var n := Op(Flatten(left));
        if n < 0 {
          return n;
        }
        if n == 0 {
          return -EPIPE;
        }
        SkipDrops(left, n);
        sent := sent + Flatten(left)[..n];
        left := Skip(left, n);
      }
      return 0;
    }
  }

  /** Asking for no more than a uint32_t does not change what an operation takes. */
  lemma SameTake(script: seq<int>, n: nat, asked: nat)
    requires asked == if n > UINT32_MAX then UINT32_MAX else n
    ensures script != [] ==> Takes(script[0], asked) == Takes(script[0], n)
  {
  }

  /** Two operations take 2 GiB, and the send that is over reads as an error. */
  method TwoGiB(data: bytes) returns (s: Sender, rc: int)
    requires |data| == 0x8000_0000
    ensures s.wire == data && rc == -0x8000_0000
  {
    s := new Sender([INT_MAX, 1]);
    assert Goes([INT_MAX, 1][1..], 1);
    assert [INT_MAX, 1][1..] == [1];
    rc := s.Send(data);
    assert [] + data == data;
  }
}
