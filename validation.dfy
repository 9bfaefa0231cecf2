/**
 * The required-field validator in `main`: one message per falsy required
 * field, in the order name, age, weight, height, activity, diet, goal; the
 * analyse button is enabled only when there is none.
 */
module Validation {
  import opened UserProfile

  /** A field the validator checks: tdee, bp, sugar and weather are not among them. */
  type Required = k: FieldKey | Rank(k) < 7 witness Name

  /** The checked fields, in the order they are checked. */
  const RequiredOrder: seq<Required> := [Name, Age, Weight, Height, Activity, Diet, Goal]

  /** The required fields are the ones of rank below 7. */
  lemma RequiredFields(k: FieldKey)
    ensures k in RequiredOrder <==> Rank(k) < 7
  {
    if Rank(k) < 7 {
      assert RequiredOrder[Rank(k)] == k;
    }
  }

  /**
   * The message for a missing required field. The longer messages are
   * written as two literals, which the verifier handles more cheaply.
   */
  function Message(k: Required): string {
    match k
    case Name => "Please enter your name"
    case Age => "Please enter your age"
    case Weight => "Please enter your weight"
    case Height => "Please enter your height"
    case Activity => "Please select your " + "activity level"
    case Diet => "Please select your " + "dietary preference"
    case Goal => "Please select your " + "fitness goal"
  }

  /** Different required fields get different messages. */
  lemma MessagesDistinct(k1: Required, k2: Required)
    requires k1 != k2
    ensures Message(k1) != Message(k2)
  {
    var m1, m2 := Message(k1), Message(k2);
    if |m1| == |m2| {
      assert m1[18] != m2[18];
    }
  }

  /** A message for field `k` when it is falsy, nothing when it is truthy. */
  function MessageIfMissing(p: Profile, k: Required): seq<string> {
    if Truthy(p, k) then [] else [Message(k)]
  }

  /** The checked fields come in field order. */
  lemma RequiredOrderOrdered()
    ensures Ordered(RequiredOrder)
  {
    FieldOrderOrdered();
    assert RequiredOrder == FieldOrder[..7];
  }

  /** The seven checked fields, position by position. */
  lemma RequiredOrderListed()
    ensures |RequiredOrder| == 7
    ensures RequiredOrder[0] == Name && RequiredOrder[1] == Age && RequiredOrder[2] == Weight
    ensures RequiredOrder[3] == Height && RequiredOrder[4] == Activity
    ensures RequiredOrder[5] == Diet && RequiredOrder[6] == Goal
  {
    assert RequiredOrder == [Name, Age, Weight, Height, Activity, Diet, Goal];
  }

  /** The messages due after checking the first `n` of the fields `ks`, in turn. */
  function MessagesUpTo(p: Profile, ks: seq<Required>, n: nat): seq<string>
    requires n <= |ks|
  {
    if n == 0 then []
    else MessagesUpTo(p, ks, n - 1) + MessageIfMissing(p, ks[n - 1])
  }

  /** One more check appends that field's message, if it is due. */
  lemma MessagesUpToStep(p: Profile, ks: seq<Required>, n: nat)
    requires n < |ks|
    ensures MessagesUpTo(p, ks, n + 1) == MessagesUpTo(p, ks, n) + MessageIfMissing(p, ks[n])
  {
  }

  /** The messages the validator should produce, once all seven required fields are checked. */
  function MissingMessages(p: Profile): seq<string> {
    MessagesUpTo(p, RequiredOrder, |RequiredOrder|)
  }

  /**
   * The pattern each check of the validation block follows: when the field
   * is falsy, clear the flag and append the field's message.
   */
  method CheckField(present: bool, message: string, isValid: bool, messages: seq<string>)
    returns (isValid': bool, messages': seq<string>)
    ensures isValid' == (isValid && present)
    ensures messages' == messages + (if present then [] else [message])
  {
    isValid', messages' := isValid, messages;
    if !present {
      isValid' := false;
      messages' := messages' + [message];
    }
  }

  /**
   * The validation block: starts valid with no message and checks name,
   * age, weight, height, activity, diet and goal in turn.
   */
  method Validate(p: Profile) returns (isValid: bool, messages: seq<string>)
    ensures messages == MissingMessages(p)
    ensures isValid <==> messages == []
  {
    RequiredOrderListed();
    isValid := true;
    messages := [];
    isValid, messages := CheckField(TruthyText(p.name), Message(Name), isValid, messages);
    MessagesUpToStep(p, RequiredOrder, 0);
    assert messages == MessagesUpTo(p, RequiredOrder, 1) && (isValid <==> messages == []);
    isValid, messages := CheckField(TruthyInt(p.age), Message(Age), isValid, messages);
    MessagesUpToStep(p, RequiredOrder, 1);
    assert messages == MessagesUpTo(p, RequiredOrder, 2) && (isValid <==> messages == []);
    isValid, messages := CheckField(TruthyMeasure(p.weight), Message(Weight), isValid, messages);
    MessagesUpToStep(p, RequiredOrder, 2);
    assert messages == MessagesUpTo(p, RequiredOrder, 3) && (isValid <==> messages == []);
    isValid, messages := CheckField(TruthyMeasure(p.height), Message(Height), isValid, messages);
    MessagesUpToStep(p, RequiredOrder, 3);
    assert messages == MessagesUpTo(p, RequiredOrder, 4) && (isValid <==> messages == []);
    isValid, messages := CheckField(TruthyText(p.activity), Message(Activity), isValid, messages);
    MessagesUpToStep(p, RequiredOrder, 4);
    assert messages == MessagesUpTo(p, RequiredOrder, 5) && (isValid <==> messages == []);
    isValid, messages := CheckField(TruthyText(p.diet), Message(Diet), isValid, messages);
    MessagesUpToStep(p, RequiredOrder, 5);
    assert messages == MessagesUpTo(p, RequiredOrder, 6) && (isValid <==> messages == []);
    isValid, messages := CheckField(TruthyText(p.goal), Message(Goal), isValid, messages);
    MessagesUpToStep(p, RequiredOrder, 6);
    assert messages == MessagesUpTo(p, RequiredOrder, 7) && (isValid <==> messages == []);
  }

  /** The messages for the listed required fields, in the same order. */
  function MessagesFor(ks: seq<Required>): (r: seq<string>)
    ensures |r| == |ks|
  {
    if ks == [] then [] else [Message(ks[0])] + MessagesFor(ks[1..])
  }

  /** Entry `i` of the messages is the message of the `i`-th listed field. */
  lemma {:induction false} MessagesForAt(ks: seq<Required>, i: nat)
    requires i < |ks|
    ensures MessagesFor(ks)[i] == Message(ks[i])
  {
    if i > 0 {
      MessagesForAt(ks[1..], i - 1);
    }
  }

  /** Listing one more field appends its message. */
  lemma {:induction false} MessagesForSnoc(ks: seq<Required>, k: Required)
    ensures MessagesFor(ks + [k]) == MessagesFor(ks) + [Message(k)]
  {
    if ks != [] {
      assert (ks + [k])[1..] == ks[1..] + [k];
      MessagesForSnoc(ks[1..], k);
    }
  }

  /** Only required fields are ever selected from required ones. */
  lemma SelectedAreRequired(p: Profile, ks: seq<Required>)
    ensures forall k :: k in SelectKeys(p, ks, false) ==> Rank(k) < 7
  {
  }

  /** The falsy fields among `ks`, as required fields. */
  function MissingAmong(p: Profile, ks: seq<Required>): (r: seq<Required>)
    ensures r == SelectKeys(p, ks, false)
  {
    SelectedAreRequired(p, ks);
    var sel := SelectKeys(p, ks, false);
    seq(|sel|, i requires 0 <= i < |sel| => assert sel[i] in sel; sel[i])
  }

  /**
   * The messages due after `n` checks are those of the falsy fields among
   * the first `n`, in order.
   */
  lemma {:induction false} MessagesUpToSelected(p: Profile, ks: seq<Required>, n: nat)
    requires n <= |ks|
    ensures MessagesUpTo(p, ks, n) == MessagesFor(MissingAmong(p, ks[..n]))
  {
    if n == 0 {
      assert ks[..n] == [];
    } else {
      var k, prev := ks[n - 1], MissingAmong(p, ks[..n - 1]);
      MessagesUpToSelected(p, ks, n - 1);
      SelectOneMore(p, ks, n);
      MessagesUpToStep(p, ks, n - 1);
      MessagesForOneMore(prev, p, k);
      calc {
        MessagesUpTo(p, ks, n);
        MessagesUpTo(p, ks, n - 1) + MessageIfMissing(p, k);
        MessagesFor(prev) + MessageIfMissing(p, k);
        MessagesFor(prev + (if Truthy(p, k) then [] else [k]));
        MessagesFor(MissingAmong(p, ks[..n]));
      }
    }
  }

  /** Selecting from one more field adds that field when it is falsy. */
  lemma SelectOneMore(p: Profile, ks: seq<Required>, n: nat)
    requires 0 < n <= |ks|
    ensures MissingAmong(p, ks[..n]) == MissingAmong(p, ks[..n - 1]) + (if Truthy(p, ks[n - 1]) then [] else [ks[n - 1]])
  {
    assert ks[..n] == ks[..n - 1] + [ks[n - 1]];
    SelectKeysSnoc(p, ks[..n - 1], ks[n - 1], false);
  }

  /** The messages of a selection grown by one field grow by that field's message, if due. */
  lemma MessagesForOneMore(sel: seq<Required>, p: Profile, k: Required)
    ensures MessagesFor(sel + (if Truthy(p, k) then [] else [k])) == MessagesFor(sel) + MessageIfMissing(p, k)
  {
    if Truthy(p, k) {
      assert sel + [] == sel;
      assert MessagesFor(sel) + [] == MessagesFor(sel);
    } else {
      MessagesForSnoc(sel, k);
    }
  }

  /**
   * One message per falsy required field: the listed fields are exactly the
   * falsy required ones, each once and in field order, and their messages
   * are distinct.
   */
  lemma OneMessagePerMissingField(p: Profile)
    ensures var ks := MissingAmong(p, RequiredOrder);
      (forall k :: k in ks <==> Rank(k) < 7 && !Truthy(p, k)) && Ordered(ks) &&
      MissingMessages(p) == MessagesFor(ks) &&
      forall i, j :: 0 <= i < j < |ks| ==> MissingMessages(p)[i] != MissingMessages(p)[j]
  {
    RequiredOrderOrdered();
    SelectKeysOrdered(p, RequiredOrder, false);
    var ks := MissingAmong(p, RequiredOrder);
    MessagesUpToSelected(p, RequiredOrder, |RequiredOrder|);
    assert RequiredOrder[..|RequiredOrder|] == RequiredOrder;
    forall k ensures k in ks <==> Rank(k) < 7 && !Truthy(p, k) { RequiredFields(k); }
    forall i, j | 0 <= i < j < |ks| ensures MissingMessages(p)[i] != MissingMessages(p)[j] {
      MessagesForAt(ks, i);
      MessagesForAt(ks, j);
      MessagesDistinct(ks[i], ks[j]);
    }
  }

  /** The analyse button is enabled exactly when all seven required fields are truthy. */
  lemma ValidIffRequiredPresent(p: Profile)
    ensures MissingMessages(p) == [] <==> forall k :: Rank(k) < 7 ==> Truthy(p, k)
  {
    OneMessagePerMissingField(p);
    SelectKeysEmpty(p, RequiredOrder, false);
    forall k ensures k in RequiredOrder <==> Rank(k) < 7 { RequiredFields(k); }
  }

  /** When every required field but the name is truthy, the name's message is the only one possible. */
  lemma OnlyNameMissing(p: Profile)
    requires forall k: Required :: k != Name ==> Truthy(p, k)
    ensures MissingMessages(p) == MessageIfMissing(p, Name)
  {
    var r := RequiredOrder;
    RequiredOrderListed();
    MessagesUpToStep(p, r, 0);
    assert MessagesUpTo(p, r, 1) == MessageIfMissing(p, Name);
    for n := 1 to 7
      invariant MessagesUpTo(p, r, n) == MessagesUpTo(p, r, 1)
    {
      MessagesUpToStep(p, r, n);
      assert r[n] != Name;
    }
  }

  /** Fields outside the seven required ones never affect validation. */
  lemma OptionalFieldsIgnored(p: Profile, q: Profile)
    requires forall k :: Rank(k) < 7 ==> Truthy(p, k) == Truthy(q, k)
    ensures MissingMessages(p) == MissingMessages(q)
  {
    forall i | 0 <= i < |RequiredOrder| ensures Truthy(p, RequiredOrder[i]) == Truthy(q, RequiredOrder[i]) {
      RequiredFields(RequiredOrder[i]);
    }
    SelectKeysDependsOnKeysOnly(p, q, RequiredOrder, false);
    OneMessagePerMissingField(p);
    OneMessagePerMissingField(q);
  }
}
