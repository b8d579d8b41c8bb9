/** removePlayer hands the dealer button on only while somebody is still
    seated, so a dealer who empties the table keeps the button after leaving,
    and the rotation in startGame then never finds the dealer. */
module GameFindings {
  import opened Wrappers
  import opened Ids
  import opened Config
  import opened Players
  import opened Tables
  import opened GameRules
  import opened GameProps
  import JavaStrings

  /** removePlayer as evidently intended: a departing dealer hands the button
      to the longest-seated remaining player, or to nobody once the table is empty. */
  function LeaveIntended(v: View, id: PlayerId): (View, Outcome<GameError>)
  {
    if id !in v.seats then (v, Fail(InvalidMove(PLAYER_NOT_FOUND)))
    else
      var order := RemoveId(v.order, id);
      (v.(order := order,
          seats := v.seats - {id},
          dealerId := if v.dealerId != Some(id) then v.dealerId else if |order| > 0 then Some(order[0]) else None),
       Pass)
  }

  /** Somebody holds the button exactly when somebody is seated, and the holder is seated. */
  predicate DealerSeated(v: View)
  {
    (v.dealerId.Some? <==> v.order != []) && (v.dealerId.Some? ==> v.dealerId.value in v.seats)
  }

  /** addPlayer keeps the button with a seated player. */
  lemma JoinKeepsDealerSeated(v: View, cfg: GameConfig, id: PlayerId, name: Option<string>)
    requires Consistent(v) && DealerSeated(v)
    ensures DealerSeated(Join(v, cfg, id, name).0)
  {
  }

  /** The intended removePlayer keeps the table consistent and the button with
      a seated player, whoever leaves. */
  lemma IntendedLeaveKeepsDealerSeated(v: View, id: PlayerId)
    requires Consistent(v) && DealerSeated(v)
    ensures Consistent(LeaveIntended(v, id).0) && DealerSeated(LeaveIntended(v, id).0)
  {
    if id in v.seats {
      var w := LeaveIntended(v, id).0;
      LeaveConsistent(v, id);
      assert w == Leave(v, id).0.(dealerId := w.dealerId);
      assert w.seats.Keys == Elements(w.order);
      if w.dealerId.Some? {
        assert w.dealerId.value in w.seats by {
          if v.dealerId == Some(id) {
            assert w.order[0] in Elements(w.order);
          }
        }
      }
      if w.order != [] && v.dealerId == Some(id) {
        assert w.dealerId == Some(w.order[0]);
      }
      if w.order == [] {
        assert w.seats == map[];
      }
    }
  }

  /** With the button always with a seated player, startGame's rotation finds
      the dealer whenever enough players are seated. */
  lemma IntendedStartNeverDiverges(v: View, cfg: GameConfig)
    requires Consistent(v) && DealerSeated(v) && cfg.minPlayers >= 1
    ensures Start(v, cfg).1 != Fail(Diverges)
  {
    if v.state == LOBBY && |v.order| >= cfg.minPlayers {
      assert v.dealerId.value in Elements(v.order);
    }
  }

  /** Join A, A leaves, join B and C, start: A still holds the button though
      nobody named A is seated, so startGame's rotation never ends. */
  lemma StrandedDealerDiverges()
    ensures var cfg, a, b, c := WithDefaults(10, 20), PlayerId("A"), PlayerId("B"), PlayerId("C");
      var v1 := Join(Initial(), cfg, a, Some("a"));
      var v2 := Leave(v1.0, a);
      var v3 := Join(v2.0, cfg, b, Some("b"));
      var v4 := Join(v3.0, cfg, c, Some("c"));
      && v1.1.Pass? && v2.1.Pass? && v3.1.Pass? && v4.1.Pass?
      && v4.0.order == [b, c] && v4.0.dealerId == Some(a)
      && Start(v4.0, cfg).1 == Fail(Diverges)
  {
    NamesNotBlank();
    var cfg, a, b, c := WithDefaults(10, 20), PlayerId("A"), PlayerId("B"), PlayerId("C");
    var v1 := Join(Initial(), cfg, a, Some("a"));
    assert v1.0.order == [a] && v1.0.dealerId == Some(a);
    var v2 := Leave(v1.0, a);
    assert RemoveId([a], a) == [] by {
      RemoveIdOne(a);
    }
    assert v2.0.order == [] && v2.0.dealerId == Some(a) && v2.0.seats == map[];
  }

  /** The same joins and leave with the intended removePlayer: the button goes
      to B, the first player seated afterwards, and the game starts with B first. */
  lemma StrandedDealerIntended()
    ensures var cfg, a, b, c := WithDefaults(10, 20), PlayerId("A"), PlayerId("B"), PlayerId("C");
      var v1 := Join(Initial(), cfg, a, Some("a"));
      var v2 := LeaveIntended(v1.0, a);
      var v3 := Join(v2.0, cfg, b, Some("b"));
      var v4 := Join(v3.0, cfg, c, Some("c"));
      && v4.1.Pass? && v4.0.dealerId == Some(b)
      && Start(v4.0, cfg).1.Pass? && Start(v4.0, cfg).0.turnOrder == [b, c]
  {
    NamesNotBlank();
    var cfg, a, b, c := WithDefaults(10, 20), PlayerId("A"), PlayerId("B"), PlayerId("C");
    var v1 := Join(Initial(), cfg, a, Some("a"));
    var v2 := LeaveIntended(v1.0, a);
    assert RemoveId([a], a) == [] by {
      RemoveIdOne(a);
    }
    assert v2.0.order == [] && v2.0.dealerId.None?;
    var v4 := Join(Join(v2.0, cfg, b, Some("b")).0, cfg, c, Some("c")).0;
    assert v4.order == [b, c] && v4.dealerId == Some(b);
    assert IndexOfId([b, c], b) == 0;
    assert Rotate([b, c], 0) == [b, c];
  }

  lemma NamesNotBlank()
    ensures !JavaStrings.IsBlank("a") && !JavaStrings.IsBlank("b") && !JavaStrings.IsBlank("c")
  {
    assert !JavaStrings.IsWhitespace("a"[0]);
    assert !JavaStrings.IsWhitespace("b"[0]);
    assert !JavaStrings.IsWhitespace("c"[0]);
  }

  lemma RemoveIdOne(a: PlayerId)
    ensures RemoveId([a], a) == []
  {
  }
}
