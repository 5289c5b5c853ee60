/**
 * Domain names as dot-separated labels: Go's `strings.Split(domain, ".")`,
 * its inverse `strings.Join`, the length-prefixed label encoding of
 * section 3.1 of RFC 1035 as `buildDNSQuery` writes it (with the length
 * byte wrapping modulo 256, as Go's `byte(len(label))` does), and a reader
 * of that encoding.
 */
module Labels {
  import opened Wire
  import opened Results

  /** The byte `'.'`. */
  const DOT: byte := 0x2E

  /** `strings.Split(s, ".")`: never empty. */
  function Split(s: seq<byte>): (r: seq<seq<byte>>)
    ensures |r| >= 1
  {
    if s == [] then [[]]
    else if s[0] == DOT then [[]] + Split(s[1..])
    else
      var rest := Split(s[1..]);
      [[s[0]] + rest[0]] + rest[1..]
  }

  /** `strings.Join(ls, ".")`: the first label, then each later one after a dot. */
  function Join(ls: seq<seq<byte>>): seq<byte>
  {
    if ls == [] then [] else ls[0] + DotEach(ls[1..])
  }

  /** Each label preceded by a dot. */
  function DotEach(ls: seq<seq<byte>>): seq<byte>
  {
    if ls == [] then [] else [DOT] + ls[0] + DotEach(ls[1..])
  }

  /** One label on the wire: its length as Go's `byte(len(label))`, then its bytes. */
  function EncodeLabel(l: seq<byte>): (b: seq<byte>)
    ensures |b| == |l| + 1 && b[1..] == l
  {
    [|l| % 0x100] + l
  }

  /** The labels in order, each length-prefixed, without the terminating zero byte. */
  function EncodeLabels(ls: seq<seq<byte>>): seq<byte>
  {
    if ls == [] then [] else EncodeLabel(ls[0]) + EncodeLabels(ls[1..])
  }

  // Unfolding each definition on a sequence written as its head and tail.

  lemma SplitCons(c: byte, t: seq<byte>)
    ensures c == DOT ==> Split([c] + t) == [[]] + Split(t)
    ensures c != DOT ==> Split([c] + t) == [[c] + Split(t)[0]] + Split(t)[1..]
  {
    assert ([c] + t)[1..] == t;
  }

  lemma JoinCons(l: seq<byte>, rest: seq<seq<byte>>)
    ensures Join([l] + rest) == l + DotEach(rest)
  {
    assert ([l] + rest)[1..] == rest;
  }

  lemma DotEachCons(l: seq<byte>, rest: seq<seq<byte>>)
    ensures DotEach([l] + rest) == [DOT] + l + DotEach(rest)
  {
    assert ([l] + rest)[1..] == rest;
  }

  lemma EncodeCons(l: seq<byte>, rest: seq<seq<byte>>)
    ensures EncodeLabels([l] + rest) == [|l| % 0x100] + l + EncodeLabels(rest)
  {
    assert ([l] + rest)[1..] == rest;
  }

  /** After the first label, `Join` puts a dot before each label. */
  lemma DotEachIsJoin(ls: seq<seq<byte>>)
    requires |ls| >= 1
    ensures DotEach(ls) == [DOT] + Join(ls)
  {
    Assoc([DOT], ls[0], DotEach(ls[1..]));
  }

  /** No piece of a split contains a dot. */
  lemma {:induction false} SplitNoDots(s: seq<byte>)
    ensures forall i :: 0 <= i < |Split(s)| ==> DOT !in Split(s)[i]
  {
    if s != [] {
      SplitNoDots(s[1..]);
    }
  }

  /** Joining the pieces of a split gives back the original string. */
  lemma {:induction false} JoinSplit(s: seq<byte>)
    ensures Join(Split(s)) == s
  {
    if s != [] {
      var c, t := s[0], s[1..];
      assert s == [c] + t;
      var rest := Split(t);
      JoinSplit(t);
      SplitCons(c, t);
      if c == DOT {
        JoinCons([], rest);
        DotEachIsJoin(rest);
      } else {
        assert rest == [rest[0]] + rest[1..];
        JoinCons([c] + rest[0], rest[1..]);
        JoinCons(rest[0], rest[1..]);
      }
    }
  }

  /** Splitting a dot-free prefix glues it to the first piece of the rest. */
  lemma {:induction false} SplitDotFreePrefix(l: seq<byte>, t: seq<byte>)
    requires DOT !in l
    ensures Split(l + t) == [l + Split(t)[0]] + Split(t)[1..]
  {
    if l == [] {
      assert l + t == t && l + Split(t)[0] == Split(t)[0];
      assert Split(t) == [Split(t)[0]] + Split(t)[1..];
    } else {
      var c, l' := l[0], l[1..];
      assert l == [c] + l' && l + t == [c] + (l' + t);
      SplitDotFreePrefix(l', t);
      SplitCons(c, l' + t);
      assert [c] + (l' + Split(t)[0]) == l + Split(t)[0];
    }
  }

  /** Splitting the join of dot-free labels gives back the labels. */
  lemma {:induction false} SplitJoin(ls: seq<seq<byte>>)
    requires |ls| >= 1
    requires forall i :: 0 <= i < |ls| ==> DOT !in ls[i]
    ensures Split(Join(ls)) == ls
  {
    var l, rest := ls[0], ls[1..];
    assert ls == [l] + rest;
    JoinCons(l, rest);
    if rest == [] {
      SplitDotFreePrefix(l, []);
      assert l + [] == l;
    } else {
      SplitJoin(rest);
      DotEachIsJoin(rest);
      SplitCons(DOT, Join(rest));
      SplitDotFreePrefix(l, [DOT] + Join(rest));
      assert l + [] == l;
    }
  }

  /** Appending a label appends its encoding: the step of the encoder's loop. */
  lemma {:induction false} EncodeLabelsAppend(ls: seq<seq<byte>>, l: seq<byte>)
    ensures EncodeLabels(ls + [l]) == EncodeLabels(ls) + EncodeLabel(l)
  {
    if ls == [] {
      EncodeCons(l, []);
      assert [] + [l] == [l] + [];
    } else {
      var h, t := ls[0], ls[1..];
      assert ls == [h] + t && ls + [l] == [h] + (t + [l]);
      EncodeLabelsAppend(t, l);
      EncodeCons(h, t + [l]);
      EncodeCons(h, t);
    }
  }

  /** A length byte where `DotEach` has a dot: the two have the same length. */
  lemma {:induction false} EncodeLengthIsDotEachLength(ls: seq<seq<byte>>)
    ensures |EncodeLabels(ls)| == |DotEach(ls)|
  {
    if ls != [] {
      EncodeLengthIsDotEachLength(ls[1..]);
    }
  }

  /** Each dot of the name becomes a length byte, and one more byte leads. */
  lemma EncodedLength(ls: seq<seq<byte>>)
    requires |ls| >= 1
    ensures |EncodeLabels(ls)| == |Join(ls)| + 1
  {
    EncodeLengthIsDotEachLength(ls);
    DotEachIsJoin(ls);
  }

  /** The number of bytes before the first dot (or the end). */
  function RunLength(s: seq<byte>): (n: nat)
    ensures n <= |s|
  {
    if s == [] || s[0] == DOT then 0 else 1 + RunLength(s[1..])
  }

  /** The run holds no dot, and a dot or the end follows it. */
  lemma {:induction false} RunLengthStopsAtDot(s: seq<byte>)
    ensures DOT !in s[..RunLength(s)]
    ensures RunLength(s) < |s| ==> s[RunLength(s)] == DOT
  {
    if s != [] && s[0] != DOT {
      RunLengthStopsAtDot(s[1..]);
      assert s[..RunLength(s)] == [s[0]] + s[1..][..RunLength(s[1..])];
    }
  }

  /**
   * The name, independently of `Split`: every dot replaced by the length
   * (modulo 256) of the label that follows it.
   */
  function DotsToLengths(s: seq<byte>): (b: seq<byte>)
    ensures |b| == |s|
  {
    if s == [] then []
    else if s[0] == DOT then [RunLength(s[1..]) % 0x100] + DotsToLengths(s[1..])
    else [s[0]] + DotsToLengths(s[1..])
  }

  /** Every byte that is not a dot stays in place. */
  lemma {:induction false} DotsToLengthsKeeps(s: seq<byte>, i: nat)
    requires i < |s| && s[i] != DOT
    ensures DotsToLengths(s)[i] == s[i]
  {
    if i > 0 {
      DotsToLengthsKeeps(s[1..], i - 1);
    }
  }

  /** Every dot becomes the length, modulo 256, of the run that follows it. */
  lemma {:induction false} DotsToLengthsAtDot(s: seq<byte>, i: nat)
    requires i < |s| && s[i] == DOT
    ensures DotsToLengths(s)[i] == RunLength(s[i + 1..]) % 0x100
  {
    if i > 0 {
      DotsToLengthsAtDot(s[1..], i - 1);
      assert s[1..][i..] == s[i + 1..];
    }
  }

  /** The first piece of a split is the run of bytes before the first dot. */
  lemma {:induction false} SplitHead(s: seq<byte>)
    ensures Split(s)[0] == s[..RunLength(s)]
  {
    if s != [] && s[0] != DOT {
      SplitHead(s[1..]);
    }
  }

  /**
   * The encoded labels of a domain are the domain itself with a leading
   * length byte and each dot replaced by the length of the next label.
   */
  lemma {:induction false} EncodeSplitLayout(s: seq<byte>)
    ensures EncodeLabels(Split(s)) == [RunLength(s) % 0x100] + DotsToLengths(s)
  {
    if s == [] {
      EncodeCons([], []);
    } else {
      var c, t := s[0], s[1..];
      assert s == [c] + t;
      var rest := Split(t);
      EncodeSplitLayout(t);
      SplitCons(c, t);
      if c == DOT {
        EncodeCons([], rest);
      } else {
        var r0, more := rest[0], rest[1..];
        assert rest == [r0] + more;
        SplitHead(t);
        assert |r0| == RunLength(t);
        var e := EncodeLabels(more);
        // the rest's encoding, less its length byte, is the rest of the layout
        EncodeCons(r0, more);
        Assoc([|r0| % 0x100], r0, e);
        AppendSlices([|r0| % 0x100], r0 + e);
        AppendSlices([RunLength(t) % 0x100], DotsToLengths(t));
        assert r0 + e == DotsToLengths(t);
        // gluing c onto the first label
        EncodeCons([c] + r0, more);
        Assoc([(|r0| + 1) % 0x100], [c] + r0, e);
        Assoc([c], r0, e);
        assert RunLength(s) == 1 + RunLength(t) && DotsToLengths(s) == [c] + DotsToLengths(t);
      }
    }
  }

  /**
   * Reads length-prefixed labels from the front of `b` up to the first zero
   * length byte; `None` if the bytes run out first.
   */
  function DecodeLabels(b: seq<byte>): Option<seq<seq<byte>>>
    decreases |b|
  {
    if |b| == 0 then None
    else if b[0] == 0 then Some([])
    else
      var n := b[0] as int;
      if |b| < 1 + n then None
      else
        match DecodeLabels(b[1 + n..])
        case None => None
        case Some(rest) => Some([b[1..1 + n]] + rest)
  }

  /** The labels before the first empty one. */
  function UpToEmpty(ls: seq<seq<byte>>): (r: seq<seq<byte>>)
    ensures |r| <= |ls| && r == ls[..|r|]
    ensures forall i :: 0 <= i < |r| ==> r[i] != []
    ensures |r| < |ls| ==> ls[|r|] == []
  {
    if ls == [] || ls[0] == [] then [] else [ls[0]] + UpToEmpty(ls[1..])
  }

  /**
   * Reading back encoded labels (each shorter than 256 bytes) followed by a
   * zero byte yields the labels up to the first empty one, whose zero
   * length byte reads as the terminator.
   */
  lemma {:induction false} DecodeEncodeLabels(ls: seq<seq<byte>>, tail: seq<byte>)
    requires forall i :: 0 <= i < |ls| ==> |ls[i]| < 0x100
    ensures DecodeLabels(EncodeLabels(ls) + [0] + tail) == Some(UpToEmpty(ls))
  {
    if ls != [] && ls[0] != [] {
      var l, rest := ls[0], ls[1..];
      assert ls == [l] + rest;
      EncodeCons(l, rest);
      var after := EncodeLabels(rest) + [0] + tail;
      var b := EncodeLabels(ls) + [0] + tail;
      assert b == [|l|] + l + after;
      assert b[1 + |l|..] == after;
      assert b[1..1 + |l|] == l;
      DecodeEncodeLabels(rest, tail);
    }
  }
}
