/** Worked examples of the mining rules on concrete conversations. */
module Scenarios {
  import opened Text
  import opened Records
  import opened Mining

  /** "I don't like running but I love lifting weights", in pieces. */
  const P1 := "I"
  const P2 := " don't like "
  const P3 := "run"
  const P4 := "ning but "
  const P5 := " love "
  const P6 := "lift"
  const P7 := "ing weights"
  const Mixed := P1 + P2 + P3 + P4 + P1 + P5 + P6 + P7
  const MixedLower := "i" + P2 + P3 + P4 + "i" + P5 + P6 + P7

  lemma MixedLowered()
    ensures Lower(Mixed) == MixedLower
  {
    LowerAppend(P1, P2);
    LowerAppend(P1 + P2, P3);
    LowerAppend(P1 + P2 + P3, P4);
    LowerAppend(P1 + P2 + P3 + P4, P1);
    LowerAppend(P1 + P2 + P3 + P4 + P1, P5);
    LowerAppend(P1 + P2 + P3 + P4 + P1 + P5, P6);
    LowerAppend(P1 + P2 + P3 + P4 + P1 + P5 + P6, P7);
    assert Lower(P1) == "i" && Lower(P2) == P2 && Lower(P3) == P3 && Lower(P4) == P4;
    assert Lower(P5) == P5 && Lower(P6) == P6 && Lower(P7) == P7;
  }

  /** The lowered message holds "don't like", "run" and "lift", and neither
      "cardio" nor "gym". */
  lemma MixedKeywords()
    ensures Contains(MixedLower, "don't like")
    ensures Contains(MixedLower, "run") && Contains(MixedLower, "lift")
    ensures !Contains(MixedLower, "cardio") && !Contains(MixedLower, "gym")
  {
    MixedHolds();
    MixedLacks();
  }

  /** A word occurs in itself padded by a space on each side. */
  lemma Padded(w: string)
    ensures OccursAt(" " + w + " ", w, 1)
  {
    assert OccursAt(w, w, 0) by {
      assert w[0..|w|] == w;
    }
    OccursPrepend(" ", w, w, 0);
    OccursExtend(" " + w, w, 1, " ");
  }

  lemma MixedHolds()
    ensures Contains(MixedLower, "don't like")
    ensures Contains(MixedLower, "run") && Contains(MixedLower, "lift")
  {
    MixedHoldsDontLike();
    MixedHoldsRun();
    MixedHoldsLift();
  }

  lemma MixedHoldsDontLike()
    ensures Contains(MixedLower, "don't like")
  {
    var b := "i" + P2;
    var rest := P3 + P4 + "i" + P5 + P6 + P7;
    assert P2 == " " + "don't like" + " ";
    Padded("don't like");
    OccursPrepend("i", P2, "don't like", 1);
    OccursExtend(b, "don't like", 2, rest);
    assert b + rest == MixedLower;
    ContainsAt(MixedLower, "don't like", 2);
  }

  lemma MixedHoldsRun()
    ensures Contains(MixedLower, "run")
  {
    var b := "i" + P2;
    var rest := P4 + "i" + P5 + P6 + P7;
    assert OccursAt(P3, "run", 0);
    OccursPrepend(b, P3, "run", 0);
    OccursExtend(b + P3, "run", |b|, rest);
    assert b + P3 + rest == MixedLower;
    ContainsAt(MixedLower, "run", |b|);
  }

  lemma MixedHoldsLift()
    ensures Contains(MixedLower, "lift")
  {
    var d := "i" + P2 + P3 + P4 + "i" + P5;
    assert OccursAt(P6, "lift", 0);
    OccursPrepend(d, P6, "lift", 0);
    OccursExtend(d + P6, "lift", |d|, P7);
    assert d + P6 + P7 == MixedLower;
    ContainsAt(MixedLower, "lift", |d|);
  }

  lemma MixedLacks()
    ensures !Contains(MixedLower, "cardio") && !Contains(MixedLower, "gym")
  {
    assert forall k :: 0 <= k < |MixedLower| ==> MixedLower[k] != 'c' && MixedLower[k] != 'y' by {
      forall k | 0 <= k < |MixedLower| ensures MixedLower[k] != 'c' && MixedLower[k] != 'y' {
        PiecesLack(k);
      }
    }
    NotContainsMissingChar(MixedLower, "cardio", 'c');
    NotContainsMissingChar(MixedLower, "gym", 'y');
  }

  lemma PiecesLack(k: int)
    requires 0 <= k < |MixedLower|
    ensures MixedLower[k] != 'c' && MixedLower[k] != 'y'
  {
    var s := MixedLower;
    var n1 := |"i" + P2|;
    var n2 := n1 + |P3 + P4|;
    var n3 := n2 + |"i" + P5|;
    if k < n1 {
      assert s[k] == ("i" + P2)[k];
    } else if k < n2 {
      assert s[k] == (P3 + P4)[k - n1];
    } else if k < n3 {
      assert s[k] == ("i" + P5)[k - n2];
    } else {
      assert s[k] == (P6 + P7)[k - n3];
    }
  }

  lemma OneMessageWindow(m: Message)
    requires m.role == "user"
    ensures UserContents(Last([m], 10)) == [m.content]
  {
    assert Last([m], 10) == [m];
    assert [m][1..] == [];
  }

  /** A one-message conversation mines exactly that message's tags. */
  lemma SingleMessage(content: string)
    ensures MinePreferences([Message("user", content, 0)]) ==
      Preferences(LikesOf(Lower(content)), DislikesOf(Lower(content)))
  {
    var m := Message("user", content, 0);
    OneMessageWindow(m);
    CollectOne(LikesOf, content);
    CollectOne(DislikesOf, content);
  }

  /** The tags the lowered message contributes on its own. */
  lemma MixedTags()
    ensures LikesOf(MixedLower) == []
    ensures forall t :: t in DislikesOf(MixedLower) <==> t == "weightlifting" || t == "running"
  {
    MixedKeywords();
    assert Negations[1] == "don't like";
    assert Negated(MixedLower);
    NegatedMessageTags(MixedLower);
  }

  /** The negation check runs over the whole message, so a message that
      dislikes one activity and likes another is read as disliking both:
      "lifting weights" lands among the dislikes and nothing is liked. */
  lemma NegationShadowsLike()
    ensures var p := MinePreferences([Message("user", Mixed, 0)]);
      && p.likes == []
      && forall t :: t in p.dislikes <==> t == "weightlifting" || t == "running"
  {
    MixedLowered();
    MixedTags();
    SingleMessage(Mixed);
  }
}
