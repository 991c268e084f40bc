/** Which stream an item comes from, and what that says about the stream. */
module Origins {
  import opened Types
  import opened Errors
  import opened Wire
  import opened WireProofs
  import opened Listening
  import opened Listeners
  import opened ListenerProofs

  // ----- the origin of a flattened item -------------------------------------------------------

  /** The stream an item of the flattened uni-streams comes from, by its place in the order of
      acceptance, and the position among the items of that stream. */
  datatype Origin = Origin(stream: nat, pos: nat)
  {
    function Later(): Origin {
      Origin(stream + 1, pos)
    }
  }

  function OriginOf(c: Codec, accepts: seq<Accept>, p: nat): (o: Origin)
    requires p < |FlatItems(c, accepts)|
    ensures o.stream < |accepts|
  {
    var n := match accepts[0]
             case Accepted(s) => |StreamItems(c, s)|
             case AcceptFailed(_) => 1;
    if p < n then Origin(0, p) else OriginOf(c, accepts[1..], p - n).Later()
  }

  /** What accepting contributes: the items of a stream, or the failure itself. */
  function Contribution(c: Codec, a: Accept): seq<Item> {
    match a
    case Accepted(s) => StreamItems(c, s)
    case AcceptFailed(q) =>
      if FromQuinn(q).IsBenign() then [] else [Err(RecvConnectionLost(FromQuinn(q)))]
  }

  lemma {:induction false} OriginMeaning(c: Codec, accepts: seq<Accept>, p: nat)
    requires p < |FlatItems(c, accepts)|
    ensures var o := OriginOf(c, accepts, p);
            && o.pos < |Contribution(c, accepts[o.stream])|
            && FlatItems(c, accepts)[p] == Contribution(c, accepts[o.stream])[o.pos]
  {
    hide StreamItems;
    var n := |Contribution(c, accepts[0])|;
    if p >= n {
      OriginMeaning(c, accepts[1..], p - n);
    }
  }

  /** No two items have the same origin. */
  lemma {:induction false} OriginsDiffer(c: Codec, accepts: seq<Accept>, p: nat, q: nat)
    requires p < q < |FlatItems(c, accepts)|
    ensures OriginOf(c, accepts, p) != OriginOf(c, accepts, q)
  {
    hide StreamItems;
    var n := |Contribution(c, accepts[0])|;
    if p >= n {
      OriginsDiffer(c, accepts[1..], p - n, q - n);
    }
  }

  // ----- what a listener gets to --------------------------------------------------------------

  /** Nothing accepted before `j` failed or ended with the loss of the connection. */
  ghost predicate Clear(c: Codec, accepts: seq<Accept>, j: nat)
    requires j <= |accepts|
  {
    forall i :: 0 <= i < j ==> accepts[i].Accepted? && NoLoss(StreamItems(c, accepts[i].content))
  }

  lemma {:induction false} CutAfter(items: seq<Item>, more: seq<Item>)
    requires NoLoss(items)
    ensures CutAtLoss(items + more) == items + CutAtLoss(more)
  {
    if items == [] {
      assert items + more == more;
      assert items + CutAtLoss(more) == CutAtLoss(more);
    } else {
      CutAfter(items[1..], more);
      ConcatParts(items, more);
      Uncons(items);
      Assoc([items[0]], items[1..], CutAtLoss(more));
    }
  }

  /** After a loss nothing follows. */
  lemma {:induction false} CutBefore(items: seq<Item>, more: seq<Item>)
    requires !NoLoss(items)
    ensures |CutAtLoss(items + more)| <= |items|
  {
    ConcatParts(items, more);
    if !IsLossItem(items[0]) {
      assert !NoLoss(items[1..]) by {
        var i :| 0 <= i < |items| && IsLossItem(items[i]);
        assert items[1..][i - 1] == items[i];
      }
      CutBefore(items[1..], more);
    }
  }

  /** A position before which there is no loss is not cut off. */
  lemma {:induction false} CutKeeps(items: seq<Item>, p: nat)
    requires p < |items| && NoLoss(items[..p])
    ensures p < |CutAtLoss(items)|
  {
    if p > 0 {
      assert items[0] == items[..p][0];
      assert items[1..][..p - 1] == items[..p][1..];
      CutKeeps(items[1..], p - 1);
    }
  }

  /** A uni listener gets to a stream only if nothing before it stopped it. */
  lemma {:induction false} ReachedMeansClear(c: Codec, accepts: seq<Accept>, p: nat)
    requires p < |CutAtLoss(FlatItems(c, accepts))| && p < |FlatItems(c, accepts)|
    ensures Clear(c, accepts, OriginOf(c, accepts, p).stream)
  {
    hide StreamItems, CutAtLoss, NoLoss;
    var items := Contribution(c, accepts[0]);
    if p >= |items| {
      var rest := FlatItems(c, accepts[1..]);
      assert FlatItems(c, accepts) == items + rest;
      if !NoLoss(items) {
        CutBefore(items, rest);
        assert false;
      }
      FailureIsLoss(c, accepts[0]);
      CutAfter(items, rest);
      ReachedMeansClear(c, accepts[1..], p - |items|);
      var o := OriginOf(c, accepts[1..], p - |items|);
      forall i | 0 <= i < o.stream + 1
        ensures accepts[i].Accepted? && NoLoss(StreamItems(c, accepts[i].content))
      {
        if i > 0 {
          assert accepts[i] == accepts[1..][i - 1];
        }
      }
    }
  }

  lemma FailureIsLoss(c: Codec, a: Accept)
    requires NoLoss(Contribution(c, a))
    ensures a.Accepted? || FromQuinn(a.error).IsBenign()
  {
    if a.AcceptFailed? && !FromQuinn(a.error).IsBenign() {
      assert IsLossItem(Contribution(c, a)[0]);
    }
  }

  /** And if nothing before it stopped it, it gets to every item of the stream. */
  lemma {:induction false} ClearMeansReached(c: Codec, accepts: seq<Accept>, j: nat, pos: nat)
    returns (p: nat)
    requires j < |accepts| && accepts[j].Accepted? && pos < |StreamItems(c, accepts[j].content)|
    requires Clear(c, accepts, j)
    ensures p < |CutAtLoss(FlatItems(c, accepts))| && p < |FlatItems(c, accepts)|
    ensures OriginOf(c, accepts, p) == Origin(j, pos)
  {
    hide StreamItems, CutAtLoss;
    var items, rest := StreamItems(c, accepts[0].content), FlatItems(c, accepts[1..]);
    if j == 0 {
      p := pos;
      StreamErrorOnlyLast(c, accepts[0].content);
      assert (items + rest)[..pos] == items[..pos];
      CutKeeps(items + rest, pos);
    } else {
      assert Clear(c, accepts[1..], j - 1) by {
        hide NoLoss;
        forall i | 0 <= i < j - 1
          ensures accepts[1..][i].Accepted? && NoLoss(StreamItems(c, accepts[1..][i].content))
        {
          assert accepts[1..][i] == accepts[i + 1];
        }
      }
      var q := ClearMeansReached(c, accepts[1..], j - 1, pos);
      CutAfter(items, rest);
      p := |items| + q;
    }
  }

  // ----- losses in the middle of a frame ------------------------------------------------------

  /** A frame at the head of `s` is cut short, after at least one byte, by the failure `e`. */
  ghost predicate CutInFrame(s: seq<Sym>, e: RecvError) {
    && 0 < Lead(s) < ClaimedLen(s)
    && Lead(s) < |s|
    && FromRead(s[Lead(s)].e) == e
  }

  /** Whether reading goes on after `r`: on a uni-stream only after a user message. */
  predicate GoesOn(source: Source, r: ReadResult) {
    if source == Uni then IsUser(r) else !EndsReading(r)
  }

  /** Reading `s` gets past `n` frames and then meets `e` inside the next one. */
  ghost predicate LostAfter(c: Codec, source: Source, s: seq<Sym>, n: nat, e: RecvError)
    decreases n
  {
    var p := Parse(c, s);
    if n == 0 then p.result == Err(e) && CutInFrame(s, e)
    else GoesOn(source, p.result) && LostAfter(c, source, p.rest, n - 1, e)
  }

  ghost predicate LostMidFrame(c: Codec, source: Source, s: seq<Sym>, e: RecvError) {
    exists n: nat :: LostAfter(c, source, s, n, e)
  }

  lemma LostLater(c: Codec, source: Source, s: seq<Sym>, e: RecvError)
    requires GoesOn(source, Parse(c, s).result) && LostMidFrame(c, source, Parse(c, s).rest, e)
    ensures LostMidFrame(c, source, s, e)
  {
    hide Parse, GoesOn, CutInFrame;
    var n: nat :| LostAfter(c, source, Parse(c, s).rest, n, e);
    assert LostAfter(c, source, s, n + 1, e);
  }

  lemma LostHere(c: Codec, source: Source, s: seq<Sym>, e: RecvError)
    requires Parse(c, s).result == Err(e) && IsBenignLoss(e)
    ensures LostMidFrame(c, source, s, e)
  {
    hide Parse;
    BenignLossIsMidFrame(c, s);
    assert LostAfter(c, source, s, 0, e);
  }

  predicate IsBenignItem(i: Item) {
    i.Err? && IsBenignLoss(i.error)
  }

  lemma {:induction false} StreamLossIsMidFrame(c: Codec, s: seq<Sym>, item: Item)
    requires item in StreamItems(c, s) && IsBenignItem(item)
    ensures LostMidFrame(c, Uni, s, item.error)
    decreases |s|
  {
    hide Parse, LostMidFrame;
    var p := Parse(c, s);
    if p.result == Err(item.error) {
      LostHere(c, Uni, s, item.error);
    } else {
      StreamLossIsMidFrame(c, p.rest, item);
      LostLater(c, Uni, s, item.error);
    }
  }

  lemma {:induction false} BiLossIsMidFrame(c: Codec, i: nat, s: seq<Sym>, item: Item)
    requires item in BiSpec(c, s) && IsBenignItem(item)
    ensures LostMidFrame(c, Bi(i), s, item.error)
    decreases |s|
  {
    hide Parse, LostMidFrame, BiSpec;
    BiSpecStep(c, s);
    var p := Parse(c, s);
    if p.result == Err(item.error) {
      LostHere(c, Bi(i), s, item.error);
    } else {
      BiLossIsMidFrame(c, i, p.rest, item);
      LostLater(c, Bi(i), s, item.error);
    }
  }

  // ----- losses come last ---------------------------------------------------------------------

  lemma {:induction false} BiLossOnlyLast(c: Codec, s: seq<Sym>)
    ensures LossOnlyLast(BiSpec(c, s))
    decreases |s|
  {
    hide Parse, BiSpec;
    BiSpecStep(c, s);
    var p := Parse(c, s);
    if s != [] {
      BiLossOnlyLast(c, p.rest);
    }
  }

  /** On a uni-stream every item but the last is a message: the first error, of whatever kind,
      ends the stream. */
  lemma {:induction false} StreamErrorOnlyLast(c: Codec, s: seq<Sym>)
    ensures forall i :: 0 <= i < |StreamItems(c, s)| && StreamItems(c, s)[i].Err?
                        ==> i == |StreamItems(c, s)| - 1
    decreases |s|
  {
    hide Parse;
    var p := Parse(c, s);
    if s != [] {
      StreamErrorOnlyLast(c, p.rest);
    }
  }
}
