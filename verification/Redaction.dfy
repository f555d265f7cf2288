/** Hiding secrets in JSON trees and restoring them in what a client sends back (src/inventory-redaction.ts). */
module Redaction {
  import opened Text
  import opened Wrappers
  import ConfigMask

  /** An object is a map: the order of its keys is not modelled. */
  datatype Json =
    | Null
    | Bool(b: bool)
    | Num(n: real)
    | Str(s: string)
    | Arr(items: seq<Json>)
    | Obj(fields: map<string, Json>)

  const PLACEHOLDER: string := ConfigMask.PLACEHOLDER
  const ID: string := "id"
  const NODE_ID: string := "nodeId"
  const AREA: string := "area"
  const PASSWORD: string := "password"

  predicate IsSecret(key: string) {
    var k := Lower(key);
    k == "password" || k == "aokeys" || k == "birdprivatekey" || k == "privatekey" || k == "remotepublickey"
    || k == "sharedsecret" || k == "secret"
  }

  /** Keys of configuration texts, in which only quoted credentials are hidden. */
  predicate IsConfigText(key: string) {
    key == "config" || key == "sessionConfig" || key == "generatedConfig" || key == "previousConfig" || key == "diff"
    || key == "unified"
  }

  // ----- Redacting

  function Redact(v: Json, key: string): Json {
    match v
    case Str(s) =>
      if IsConfigText(key) then Str(ConfigMask.Mask(s))
      else if IsSecret(key) && |s| > 0 then Str(PLACEHOLDER)
      else v
    case Arr(items) => Arr(seq(|items|, i requires 0 <= i < |items| => Redact(items[i], "")))
    case Obj(fields) => Obj(map k | k in fields :: Redact(fields[k], k))
    case _ => v
  }

  /** Which texts are hidden: whole secrets, in either case of their keys, and credentials in configuration texts. */
  lemma HiddenTexts(s: string, key: string)
    ensures
      var hidden := Redact(Str(s), key);
      if key in {"config", "sessionConfig", "generatedConfig", "previousConfig", "diff", "unified"} then
        hidden == Str(ConfigMask.Mask(s))
      else if Lower(key) in {"password", "aokeys", "birdprivatekey", "privatekey", "remotepublickey", "sharedsecret",
                             "secret"} then
        hidden == Str(if s == "" then "" else "********")
      else hidden == Str(s)
  {
  }

  // ----- Restoring

  function FieldOf(fields: map<string, Json>, key: string): Option<Json> {
    if key in fields then Some(fields[key]) else None
  }

  /** Strict equality: arrays and objects of different trees are never equal. */
  predicate Same(a: Option<Json>, b: Option<Json>) {
    a == b && (a.Some? ==> !a.value.Arr? && !a.value.Obj?)
  }

  predicate Identified(item: Json) {
    item.Obj? && (ID in item.fields || NODE_ID in item.fields)
  }

  predicate Matches(item: Json, candidate: Json)
    requires Identified(item)
  {
    && candidate.Obj?
    && if ID in item.fields then
         && Same(FieldOf(candidate.fields, ID), FieldOf(item.fields, ID))
         && (AREA in item.fields ==> Same(FieldOf(candidate.fields, AREA), FieldOf(item.fields, AREA)))
       else Same(FieldOf(candidate.fields, NODE_ID), FieldOf(item.fields, NODE_ID))
  }

  function Find(item: Json, candidates: seq<Json>): Option<Json>
    requires Identified(item)
  {
    if candidates == [] then None
    else if Matches(item, candidates[0]) then Some(candidates[0])
    else Find(item, candidates[1..])
  }

  /** The old item whose secrets an incoming array item may take. */
  function OldItem(item: Json, previous: Option<Json>, index: nat): Option<Json> {
    var candidates := if previous.Some? && previous.value.Arr? then previous.value.items else [];
    if Identified(item) then Find(item, candidates)
    else if index < |candidates| then Some(candidates[index])
    else None
  }

  function OldField(previous: Option<Json>, key: string): Option<Json> {
    if previous.Some? && previous.value.Obj? then FieldOf(previous.value.fields, key) else None
  }

  function Restore(v: Json, previous: Option<Json>, key: string): Json {
    match v
    case Str(s) =>
      if IsSecret(key) && s == PLACEHOLDER && previous.Some? && previous.value.Str? then previous.value else v
    case Arr(items) =>
      Arr(seq(|items|, i requires 0 <= i < |items| => Restore(items[i], OldItem(items[i], previous, i), "")))
    case Obj(fields) => Obj(map k | k in fields :: Restore(fields[k], OldField(previous, k), k))
    case _ => v
  }

  // ----- Round trip

  predicate ScalarField(fields: map<string, Json>, key: string) {
    key in fields ==> !fields[key].Arr? && !fields[key].Obj?
  }

  /** An identified record is known by scalar fields, and no earlier one has its identity. */
  predicate FindsItself(items: seq<Json>, i: nat)
    requires i < |items|
  {
    Identified(items[i]) ==>
      && (if ID in items[i].fields then ScalarField(items[i].fields, ID) && ScalarField(items[i].fields, AREA)
          else ScalarField(items[i].fields, NODE_ID))
      && forall j :: 0 <= j < i ==> !Matches(items[i], items[j])
  }

  predicate Scalar(v: Json) {
    !v.Arr? && !v.Obj?
  }

  /** Records are told apart by their ids, or by their areas when the ids agree, or else by their node ids. */
  predicate ToldApart(left: Json, right: Json) {
    && left.Obj? && right.Obj?
    && if ID in right.fields then
         || (ID in left.fields ==> left.fields[ID] != right.fields[ID])
         || (AREA in right.fields && (AREA in left.fields ==> left.fields[AREA] != right.fields[AREA]))
       else NODE_ID in right.fields && (NODE_ID in left.fields ==> left.fields[NODE_ID] != right.fields[NODE_ID])
  }

  /** Records with scalar identities that are told apart find themselves. */
  lemma ToldApartFinds(items: seq<Json>, i: nat)
    requires i < |items| && forall j :: 0 <= j < i ==> ToldApart(items[j], items[i])
    requires items[i].Obj? && forall k :: k in {"id", "area", "nodeId"} && k in items[i].fields ==>
      Scalar(items[i].fields[k])
    ensures FindsItself(items, i)
  {
  }

  /** A record without id and node id is matched by its position. */
  lemma OthersByPosition(item: Json, items: seq<Json>, i: nat)
    requires !item.Obj? || ("id" !in item.fields && "nodeId" !in item.fields)
    ensures OldItem(item, Some(Arr(items)), i) == if i < |items| then Some(items[i]) else None
  {
  }

  predicate Recoverable(v: Json, key: string) {
    match v
    case Str(s) => IsConfigText(key) ==> ConfigMask.AllHidden(ConfigMask.Credentials(s, false))
    case Arr(items) => forall i :: 0 <= i < |items| ==> Recoverable(items[i], "") && FindsItself(items, i)
    case Obj(fields) => forall k :: k in fields ==> Recoverable(fields[k], k)
    case _ => true
  }

  lemma OrdinaryKeys()
    ensures !IsSecret(ID) && !IsSecret(NODE_ID) && !IsSecret(AREA) && !IsSecret("")
    ensures !IsConfigText(ID) && !IsConfigText(NODE_ID) && !IsConfigText(AREA) && !IsConfigText("")
  {
    assert |Lower(ID)| == 2 && |Lower(NODE_ID)| == 6 && |Lower(AREA)| == 4 && |Lower("")| == 0;
    assert Lower(NODE_ID)[0] == 'n' && "secret"[0] == 's' && "aokeys"[0] == 'a';
  }

  lemma IdentityField(v: Json, key: string)
    requires !IsSecret(key) && !IsConfigText(key)
    ensures (v.Arr? || v.Obj?) ==> (Redact(v, key).Arr? || Redact(v, key).Obj?)
    ensures !(v.Arr? || v.Obj?) ==> Redact(v, key) == v
  {
  }

  lemma SameRedacted(fields: map<string, Json>, other: Option<Json>, key: string)
    requires !IsSecret(key) && !IsConfigText(key)
    ensures Same(other, FieldOf(Redact(Obj(fields), "").fields, key)) <==> Same(other, FieldOf(fields, key))
  {
    if key in fields {
      IdentityField(fields[key], key);
    }
  }

  /** A record keeps its identity when it is redacted. */
  lemma SameIdentity(item: Json, candidate: Json)
    ensures Identified(Redact(item, "")) <==> Identified(item)
    ensures Identified(item) ==> (Matches(Redact(item, ""), candidate) <==> Matches(item, candidate))
  {
    OrdinaryKeys();
    if item.Obj? && candidate.Obj? {
      SameRedacted(item.fields, FieldOf(candidate.fields, ID), ID);
      SameRedacted(item.fields, FieldOf(candidate.fields, AREA), AREA);
      SameRedacted(item.fields, FieldOf(candidate.fields, NODE_ID), NODE_ID);
    }
  }

  lemma {:induction false} FindFirst(item: Json, candidates: seq<Json>, j: nat)
    requires Identified(item) && j < |candidates| && Matches(item, candidates[j])
    requires forall k :: 0 <= k < j ==> !Matches(item, candidates[k])
    ensures Find(item, candidates) == Some(candidates[j])
  {
    if j > 0 {
      FindFirst(item, candidates[1..], j - 1);
    }
  }

  lemma {:induction false} FindNone(item: Json, candidates: seq<Json>)
    requires Identified(item) && forall c :: c in candidates ==> !Matches(item, c)
    ensures Find(item, candidates) == None
  {
    if candidates != [] {
      FindNone(item, candidates[1..]);
    }
  }

  lemma {:induction false} FindAlike(item: Json, candidates: seq<Json>)
    requires Identified(item) && Identified(Redact(item, ""))
    ensures Find(Redact(item, ""), candidates) == Find(item, candidates)
  {
    if candidates != [] {
      SameIdentity(item, candidates[0]);
      FindAlike(item, candidates[1..]);
    }
  }

  /** Redaction does not change which old item an item is matched with. */
  lemma OldItemAlike(item: Json, previous: Option<Json>, index: nat)
    ensures OldItem(Redact(item, ""), previous, index) == OldItem(item, previous, index)
  {
    SameIdentity(item, item);
    if Identified(item) {
      FindAlike(item, if previous.Some? && previous.value.Arr? then previous.value.items else []);
    }
  }

  /**
   * The old tree holds each hidden secret where it will be looked for. A secret that is looked for in vain must be
   * the placeholder itself, and a configuration text must show no credential.
   */
  predicate Regains(v: Json, previous: Option<Json>, key: string) {
    match v
    case Str(s) =>
      if IsConfigText(key) then ConfigMask.AllHidden(ConfigMask.Credentials(s, false))
      else if IsSecret(key) && |s| > 0 then
        if previous.Some? && previous.value.Str? then previous.value.s == s else s == PLACEHOLDER
      else true
    case Arr(items) => forall i :: 0 <= i < |items| ==> Regains(items[i], OldItem(items[i], previous, i), "")
    case Obj(fields) => forall k :: k in fields ==> Regains(fields[k], OldField(previous, k), k)
    case _ => true
  }

  lemma ConfigTextIsNoSecret(key: string)
    ensures IsConfigText(key) ==> !IsSecret(key)
  {
    if IsConfigText(key) {
      var k := Lower(key);
      assert |k| == |key| && k[0] == LowerChar(key[0]);
      assert "aokeys"[0] == 'a' && "secret"[0] == 's' && "remotepublickey"[0] == 'r' && "birdprivatekey"[0] == 'b';
    }
  }

  /** What a client sends back unchanged becomes this tree again for exactly those old trees in which it regains all. */
  lemma {:induction false} RestoredIffRegained(v: Json, previous: Option<Json>, key: string)
    ensures Restore(Redact(v, key), previous, key) == v <==> Regains(v, previous, key)
    decreases v
  {
    ConfigTextIsNoSecret(key);
    if v.Str? {
      ConfigMask.MaskChanges(v.s);
    }
    hide IsSecret, IsConfigText, OldItem, OldField;
    var back := Restore(Redact(v, key), previous, key);
    match v
    case Arr(items) =>
      forall i | 0 <= i < |items|
        ensures back.items[i] == items[i] <==> Regains(items[i], OldItem(items[i], previous, i), "")
      {
        OldItemAlike(items[i], previous, i);
        RestoredIffRegained(items[i], OldItem(items[i], previous, i), "");
      }
      assert back.items == items <==> forall i :: 0 <= i < |items| ==> back.items[i] == items[i];
    case Obj(fields) =>
      forall k | k in fields
        ensures back.fields[k] == fields[k] <==> Regains(fields[k], OldField(previous, k), k)
      {
        RestoredIffRegained(fields[k], OldField(previous, k), k);
      }
      assert back.fields == fields <==> forall k :: k in fields ==> back.fields[k] == fields[k];
    case _ =>
  }

  lemma FindsOriginal(items: seq<Json>, j: nat)
    requires j < |items| && Identified(items[j]) && FindsItself(items, j)
    ensures Find(items[j], items) == Some(items[j])
  {
    FindFirst(items[j], items, j);
  }

  lemma {:induction false} RecoverableRegains(v: Json, key: string)
    requires Recoverable(v, key)
    ensures Regains(v, Some(v), key)
    decreases v
  {
    hide IsSecret, IsConfigText, Identified;
    match v
    case Arr(items) =>
      forall i | 0 <= i < |items|
        ensures Regains(items[i], OldItem(items[i], Some(v), i), "")
      {
        if Identified(items[i]) {
          FindsOriginal(items, i);
        }
        RecoverableRegains(items[i], "");
      }
    case Obj(fields) =>
      forall k | k in fields
        ensures Regains(fields[k], OldField(Some(v), k), k)
      {
        RecoverableRegains(fields[k], k);
      }
    case _ =>
  }

  /** With distinct identities, what a client sends back unchanged becomes the original again. */
  lemma RestoreRedacted(v: Json, key: string)
    requires Recoverable(v, key)
    ensures Restore(Redact(v, key), Some(v), key) == v
  {
    RecoverableRegains(v, key);
    RestoredIffRegained(v, Some(v), key);
  }

  // ----- Records that move, and new ones

  lemma {:induction false} RestoreNothing(v: Json, key: string)
    ensures Restore(v, None, key) == v
    decreases v
  {
    hide IsSecret, Identified, Matches;
    match v
    case Arr(items) =>
      forall i | 0 <= i < |items|
        ensures Restore(items[i], OldItem(items[i], None, i), "") == items[i]
      {
        assert OldItem(items[i], None, i) == None;
        RestoreNothing(items[i], "");
      }
      assert Restore(v, None, key).items == items;
    case Obj(fields) =>
      forall k | k in fields
        ensures Restore(fields[k], OldField(None, k), k) == fields[k]
      {
        RestoreNothing(fields[k], k);
      }
      assert Restore(v, None, key).fields == fields;
    case _ =>
  }

  predicate IsNew(item: Json, before: seq<Json>) {
    Identified(item) && forall c :: c in before ==> !Matches(item, c)
  }

  predicate IsRedactedOf(item: Json, before: seq<Json>, j: nat) {
    && j < |before| && Identified(before[j]) && FindsItself(before, j) && Recoverable(before[j], "")
    && item == Redact(before[j], "")
  }

  /** In any order, old records get their own secrets back and new ones get no secret of another. */
  lemma RestoreRearranged(incoming: seq<Json>, before: seq<Json>, i: nat, j: nat)
    requires i < |incoming|
    ensures IsRedactedOf(incoming[i], before, j) ==> Restore(Arr(incoming), Some(Arr(before)), "").items[i] == before[j]
    ensures IsNew(incoming[i], before) ==> Restore(Arr(incoming), Some(Arr(before)), "").items[i] == incoming[i]
  {
    if IsRedactedOf(incoming[i], before, j) {
      FindsOriginal(before, j);
      OldItemAlike(before[j], Some(Arr(before)), i);
      RestoreRedacted(before[j], "");
    }
    if IsNew(incoming[i], before) {
      FindNone(incoming[i], before);
      RestoreNothing(incoming[i], "");
    }
  }

  function Account(id: real, password: string): Json {
    Obj(map[ID := Num(id), PASSWORD := Str(password)])
  }

  /** Without distinct identities the round trip fails: the later of two records takes the secret of the first. */
  lemma TwinsShareSecret(id: real, a: string, b: string)
    requires a != "" && b != ""
    ensures
      var twins := Arr([Account(id, a), Account(id, b)]);
      Restore(Redact(twins, ""), Some(twins), "") == Arr([Account(id, a), Account(id, a)])
  {
    var twins := [Account(id, a), Account(id, b)];
    forall i | 0 <= i < 2
      ensures Restore(Redact(twins[i], ""), OldItem(Redact(twins[i], ""), Some(Arr(twins)), i), "") == Account(id, a)
    {
      MaskedAccount(id, if i == 0 then a else b, a);
      assert Matches(Account(id, PLACEHOLDER), twins[0]);
      FindFirst(Account(id, PLACEHOLDER), twins, 0);
    }
    assert Restore(Redact(Arr(twins), ""), Some(Arr(twins)), "").items == [Account(id, a), Account(id, a)];
  }

  lemma MaskedAccount(id: real, password: string, before: string)
    requires password != ""
    ensures Redact(Account(id, password), "") == Account(id, PLACEHOLDER)
    ensures Restore(Account(id, PLACEHOLDER), Some(Account(id, before)), "") == Account(id, before)
  {
    OrdinaryKeys();
    assert Lower(PASSWORD) == PASSWORD;
    assert PASSWORD != ID by {
      assert |PASSWORD| == 8 && |ID| == 2;
    }
    assert !IsConfigText(PASSWORD) by {
      assert PASSWORD[0] == 'p' && "previousConfig"[1] == 'r' && PASSWORD[1] == 'a';
    }
    assert Redact(Account(id, password), "").fields == Account(id, PLACEHOLDER).fields;
    assert Restore(Account(id, PLACEHOLDER), Some(Account(id, before)), "").fields == Account(id, before).fields;
  }

  // ----- What redaction hides

  lemma {:induction false} RedactIdempotent(v: Json, key: string)
    ensures Redact(Redact(v, key), key) == Redact(v, key)
    decreases v
  {
    if v.Str? {
      ConfigMask.MaskTwice(v.s);
    }
    hide IsSecret, IsConfigText;
    match v
    case Arr(items) =>
      forall i | 0 <= i < |items|
        ensures Redact(Redact(items[i], ""), "") == Redact(items[i], "")
      {
        RedactIdempotent(items[i], "");
      }
      assert Redact(Redact(v, key), key).items == Redact(v, key).items;
    case Obj(fields) =>
      forall k | k in fields
        ensures Redact(Redact(fields[k], k), k) == Redact(fields[k], k)
      {
        RedactIdempotent(fields[k], k);
      }
      assert Redact(Redact(v, key), key).fields == Redact(v, key).fields;
    case _ =>
  }

  /** Two trees that differ only in which non-empty secrets they hold and in masked credentials. */
  predicate AlikeButSecrets(a: Json, b: Json, key: string) {
    match (a, b)
    case (Str(s), Str(t)) =>
      if IsConfigText(key) then ConfigMask.Mask(s) == ConfigMask.Mask(t)
      else if IsSecret(key) then |s| > 0 <==> |t| > 0 else s == t
    case (Arr(s), Arr(t)) => |s| == |t| && forall i :: 0 <= i < |s| ==> AlikeButSecrets(s[i], t[i], "")
    case (Obj(s), Obj(t)) => s.Keys == t.Keys && forall k :: k in s ==> AlikeButSecrets(s[k], t[k], k)
    case _ => a == b
  }

  /** A redacted tree tells of a secret only whether it is empty, and tells everything else. */
  lemma {:induction false} RedactionHidesOnlySecrets(a: Json, b: Json, key: string)
    ensures Redact(a, key) == Redact(b, key) <==> AlikeButSecrets(a, b, key)
    decreases a
  {
    hide IsSecret, IsConfigText, ConfigMask.Mask;
    match (a, b)
    case (Arr(s), Arr(t)) =>
      if |s| == |t| {
        forall i | 0 <= i < |s|
          ensures Redact(s[i], "") == Redact(t[i], "") <==> AlikeButSecrets(s[i], t[i], "")
          ensures Redact(a, key).items[i] == Redact(s[i], "") && Redact(b, key).items[i] == Redact(t[i], "")
        {
          RedactionHidesOnlySecrets(s[i], t[i], "");
        }
        assert Redact(a, key).items == Redact(b, key).items <==>
          forall i :: 0 <= i < |s| ==> Redact(a, key).items[i] == Redact(b, key).items[i];
      } else {
        assert |Redact(a, key).items| != |Redact(b, key).items|;
      }
    case (Obj(s), Obj(t)) =>
      assert Redact(a, key).fields.Keys == s.Keys && Redact(b, key).fields.Keys == t.Keys;
      if s.Keys == t.Keys {
        forall k | k in s
          ensures Redact(s[k], k) == Redact(t[k], k) <==> AlikeButSecrets(s[k], t[k], k)
          ensures Redact(a, key).fields[k] == Redact(s[k], k) && Redact(b, key).fields[k] == Redact(t[k], k)
        {
          RedactionHidesOnlySecrets(s[k], t[k], k);
        }
        assert Redact(a, key).fields == Redact(b, key).fields <==>
          forall k :: k in s ==> Redact(a, key).fields[k] == Redact(b, key).fields[k];
      }
    case _ =>
  }
}
