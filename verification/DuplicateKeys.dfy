/**
 The gateway's duplicate-key scan of a request body. It reads the token stream of a
 JSON decoder, recursively, and stops at the first repeated key of any object.
 */
module DuplicateKeys {
  import opened Wrappers

  datatype Json =
    | Text(s: string)
    | Other
    | Array(items: seq<Json>)
    | Object(members: seq<Member>)

  datatype Member = Member(key: string, value: Json)

  datatype Token = OpenObject | CloseObject | OpenArray | CloseArray | Str(s: string) | Scalar

  /** The stream a decoder makes of a well-formed value. */
  function Tokens(v: Json): seq<Token> {
    match v
    case Text(s) => [Str(s)]
    case Other => [Scalar]
    case Array(items) => [OpenArray] + ItemTokens(items) + [CloseArray]
    case Object(members) => [OpenObject] + MemberTokens(members) + [CloseObject]
  }

  function ItemTokens(items: seq<Json>): seq<Token> {
    if items == [] then [] else Tokens(items[0]) + ItemTokens(items[1..])
  }

  function MemberTokens(members: seq<Member>): seq<Token> {
    if members == [] then []
    else [Str(members[0].key)] + Tokens(members[0].value) + MemberTokens(members[1..])
  }

  predicate RepeatsKey(members: seq<Member>) {
    exists i, j | 0 <= i < j < |members| :: members[i].key == members[j].key
  }

  /** Some object, at some depth, repeats a key. */
  predicate HasDuplicate(v: Json) {
    match v
    case Array(items) => exists x <- items :: HasDuplicate(x)
    case Object(members) => RepeatsKey(members) || exists m <- members :: HasDuplicate(m.value)
    case _ => false
  }

  // ---- the scan ------------------------------------------------------------

  datatype Outcome = Done | Duplicate | Failed

  predicate More(rest: seq<Token>) {
    rest != [] && rest[0] !in {CloseObject, CloseArray}
  }

  function KeyName(t: Token): string {
    if t.Str? then t.s else ""
  }

  /** Scans one value off the stream. */
  function Scan(rest: seq<Token>): (r: (Outcome, seq<Token>))
    ensures r.0.Done? ==> |r.1| < |rest|
    decreases |rest|, 0
  {
    if rest == [] then (Failed, [])
    else
      match rest[0]
      case OpenObject => ScanMembers(rest[1..], {})
      case OpenArray => ScanItems(rest[1..])
      case _ => (Done, rest[1..])
  }

  /** The rest of an object, after the keys in `seen`. */
  function ScanMembers(rest: seq<Token>, seen: set<string>): (r: (Outcome, seq<Token>))
    ensures r.0.Done? ==> |r.1| < |rest|
    decreases |rest|, 1
  {
    if !More(rest) then
      if rest == [] then (Failed, []) else (Done, rest[1..])
    else if KeyName(rest[0]) in seen then (Duplicate, rest[1..])
    else
      var (outcome, after) := Scan(rest[1..]);
      if !outcome.Done? then (outcome, after) else ScanMembers(after, seen + {KeyName(rest[0])})
  }

  function ScanItems(rest: seq<Token>): (r: (Outcome, seq<Token>))
    ensures r.0.Done? ==> |r.1| < |rest|
    decreases |rest|, 1
  {
    if !More(rest) then
      if rest == [] then (Failed, []) else (Done, rest[1..])
    else
      var (outcome, after) := Scan(rest);
      if !outcome.Done? then (outcome, after) else ScanItems(after)
  }

  /** A decoder over the tokens still to come. */
  class Decoder {
    var rest: seq<Token>

    constructor (tokens: seq<Token>)
      ensures rest == tokens
    {
      rest := tokens;
    }

    method Next() returns (t: Option<Token>)
      modifies this
      ensures if old(rest) == [] then t.None? && rest == [] else t == Some(old(rest)[0]) && rest == old(rest)[1..]
    {
      if rest == [] {
        return None;
      }
      t := Some(rest[0]);
      rest := rest[1..];
    }

    method ScanValue() returns (outcome: Outcome)
      modifies this
      ensures (outcome, rest) == Scan(old(rest))
      decreases |rest|
    {
      var t := Next();
      if t.None? {
        return Failed;
      }
      if t.value.OpenObject? {
        ghost var start := rest;
        var seen: set<string> := {};
        while More(rest)
          invariant |rest| <= |start| && ScanMembers(start, {}) == ScanMembers(rest, seen)
          decreases |rest|
        {
          var key := Next();
          var name := KeyName(key.value);
          if name in seen {
            return Duplicate;
          }
          outcome := ScanValue();
          if !outcome.Done? {
            return;
          }
          seen := seen + {name};
        }
        var close := Next();
        return if close.None? then Failed else Done;
      }
      if t.value.OpenArray? {
        ghost var start := rest;
        while More(rest)
          invariant |rest| <= |start| && ScanItems(start) == ScanItems(rest)
          decreases |rest|
        {
          outcome := ScanValue();
          if !outcome.Done? {
            return;
          }
        }
        var close := Next();
        return if close.None? then Failed else Done;
      }
      return Done;
    }
  }

  method HasDuplicateKeys(tokens: seq<Token>) returns (duplicate: bool)
    ensures duplicate <==> Scan(tokens).0 == Duplicate
  {
    var dec := new Decoder(tokens);
    var outcome := dec.ScanValue();
    duplicate := outcome == Duplicate;
  }

  // ---- correctness ---------------------------------------------------------

  lemma StartsAValue(v: Json)
    ensures Tokens(v) != [] && More(Tokens(v))
  {
  }

  /**
   On the stream of any well-formed value the scan answers "duplicate" exactly when
   some object in it repeats a key, and otherwise consumes exactly that value.
   */
  lemma {:induction false} ScanIsExact(v: Json, rest: seq<Token>)
    ensures if HasDuplicate(v) then Scan(Tokens(v) + rest).0 == Duplicate else Scan(Tokens(v) + rest) == (Done, rest)
    decreases v, 1
  {
    match v
    case Array(items) =>
      assert (Tokens(v) + rest)[1..] == ItemTokens(items) + ([CloseArray] + rest);
      ScanItemsIsExact(items, rest);
    case Object(members) =>
      assert (Tokens(v) + rest)[1..] == MemberTokens(members) + ([CloseObject] + rest);
      ScanMembersIsExact(members, {}, rest);
    case _ =>
      assert (Tokens(v) + rest)[1..] == rest;
  }

  lemma {:induction false} ScanItemsIsExact(items: seq<Json>, rest: seq<Token>)
    ensures var r := ScanItems(ItemTokens(items) + ([CloseArray] + rest));
            if exists x <- items :: HasDuplicate(x) then r.0 == Duplicate else r == (Done, rest)
    decreases items, 0
  {
    var stream := ItemTokens(items) + ([CloseArray] + rest);
    if items == [] {
      assert stream == [CloseArray] + rest && stream[1..] == rest;
    } else {
      var after := ItemTokens(items[1..]) + ([CloseArray] + rest);
      assert stream == Tokens(items[0]) + after;
      StartsAValue(items[0]);
      ScanIsExact(items[0], after);
      ScanItemsIsExact(items[1..], rest);
      assert forall x :: x in items <==> x == items[0] || x in items[1..];
    }
  }

  predicate MeetsDuplicate(members: seq<Member>, seen: set<string>) {
    || (exists m <- members :: m.key in seen)
    || RepeatsKey(members)
    || (exists m <- members :: HasDuplicate(m.value))
  }

  lemma MeetsDuplicateStep(members: seq<Member>, seen: set<string>)
    requires members != []
    ensures MeetsDuplicate(members, seen) <==>
              || members[0].key in seen
              || HasDuplicate(members[0].value)
              || MeetsDuplicate(members[1..], seen + {members[0].key})
  {
    var tail := members[1..];
    assert forall m :: m in members <==> m == members[0] || m in tail;
    if RepeatsKey(members) {
      var i, j :| 0 <= i < j < |members| && members[i].key == members[j].key;
      assert members[j] == tail[j - 1];
      if i > 0 {
        assert tail[i - 1].key == tail[j - 1].key;
      }
    }
    if RepeatsKey(tail) {
      var i, j :| 0 <= i < j < |tail| && tail[i].key == tail[j].key;
      assert members[i + 1].key == members[j + 1].key;
    }
    forall m | m in tail && m.key == members[0].key ensures RepeatsKey(members) {
      var j :| 0 <= j < |tail| && tail[j] == m;
      assert members[0].key == members[j + 1].key;
    }
  }

  lemma {:induction false} ScanMembersIsExact(members: seq<Member>, seen: set<string>, rest: seq<Token>)
    ensures var r := ScanMembers(MemberTokens(members) + ([CloseObject] + rest), seen);
            if MeetsDuplicate(members, seen) then r.0 == Duplicate else r == (Done, rest)
    decreases members, 0
  {
    var stream := MemberTokens(members) + ([CloseObject] + rest);
    if members == [] {
      assert stream == [CloseObject] + rest && stream[1..] == rest;
    } else {
      var after := MemberTokens(members[1..]) + ([CloseObject] + rest);
      assert stream[0] == Str(members[0].key) && stream[1..] == Tokens(members[0].value) + after;
      MeetsDuplicateStep(members, seen);
      ScanIsExact(members[0].value, after);
      ScanMembersIsExact(members[1..], seen + {members[0].key}, rest);
    }
  }

  // ---- truncated bodies ----------------------------------------------------

  /** What the scan answers before the stream runs out does not depend on what follows. */
  lemma {:induction false} ScanExtends(s: seq<Token>, t: seq<Token>)
    ensures !Scan(s).0.Failed? ==> Scan(s + t) == (Scan(s).0, Scan(s).1 + t)
    decreases |s|, 0
  {
    if s != [] {
      assert (s + t)[1..] == s[1..] + t;
      ScanMembersExtends(s[1..], t, {});
      ScanItemsExtends(s[1..], t);
    }
  }

  lemma {:induction false} ScanMembersExtends(s: seq<Token>, t: seq<Token>, seen: set<string>)
    ensures !ScanMembers(s, seen).0.Failed? ==>
              ScanMembers(s + t, seen) == (ScanMembers(s, seen).0, ScanMembers(s, seen).1 + t)
    decreases |s|, 1
  {
    if s != [] {
      assert (s + t)[1..] == s[1..] + t;
      if More(s) && KeyName(s[0]) !in seen {
        ScanExtends(s[1..], t);
        if Scan(s[1..]).0.Done? {
          ScanMembersExtends(Scan(s[1..]).1, t, seen + {KeyName(s[0])});
        }
      }
    }
  }

  lemma {:induction false} ScanItemsExtends(s: seq<Token>, t: seq<Token>)
    ensures !ScanItems(s).0.Failed? ==> ScanItems(s + t) == (ScanItems(s).0, ScanItems(s).1 + t)
    decreases |s|, 1
  {
    if s != [] {
      assert (s + t)[1..] == s[1..] + t;
      if More(s) {
        ScanExtends(s, t);
        if Scan(s).0.Done? {
          ScanItemsExtends(Scan(s).1, t);
        }
      }
    }
  }

  /** A body cut short fails, unless a repeated key came before the cut; it is never taken for a whole one. */
  lemma TruncatedFails(v: Json, n: nat)
    requires n < |Tokens(v)|
    ensures var outcome := Scan(Tokens(v)[..n]).0;
            !outcome.Done? && (outcome.Duplicate? ==> HasDuplicate(v))
  {
    var s, t := Tokens(v)[..n], Tokens(v)[n..];
    assert s + t == Tokens(v) == Tokens(v) + [];
    ScanExtends(s, t);
    ScanIsExact(v, []);
  }
}
