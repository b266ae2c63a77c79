/** Finding the members of an object, as `cJSON_GetObjectItem` does. */
module JsonLookup {
  import opened Bytes
  import opened Options
  import opened JsonValue

  function ToLower(b: byte): byte { if 65 <= b <= 90 then b + 32 else b }

  predicate CaseEqual(a: Text, b: Text) {
    |a| == |b| && forall i :: 0 <= i < |a| ==> ToLower(a[i]) == ToLower(b[i])
  }

  /** `cJSON_GetObjectItem`: the first member whose key matches, letter case aside. */
  function FindMember(members: seq<Member>, name: Text): Option<Value> {
    if members == [] then None
    else if CaseEqual(name, members[0].key) then Some(members[0].value)
    else FindMember(members[1..], name)
  }

  /** Bytes match when they are equal or the two cases of one letter. */
  lemma LettersMatch(a: byte, b: byte)
    ensures ToLower(a) == ToLower(b) <==> a == b || (65 <= a <= 90 && b == a + 32) || (65 <= b <= 90 && a == b + 32)
  {
  }

  /** Which member is found. */
  lemma {:induction false} FirstMatch(members: seq<Member>, name: Text) returns (i: nat)
    ensures i <= |members| && forall j :: 0 <= j < i ==> !CaseEqual(name, members[j].key)
    ensures if i == |members| then FindMember(members, name) == None
            else CaseEqual(name, members[i].key) && FindMember(members, name) == Some(members[i].value)
  {
    hide CaseEqual;
    if members == [] || CaseEqual(name, members[0].key) {
      i := 0;
    } else {
      var k := FirstMatch(members[1..], name);
      i := k + 1;
      assert forall j :: 0 < j < i ==> members[j] == members[1..][j - 1];
    }
  }

  function GetItem(v: Value, name: Text): Option<Value> {
    if v.Object? then FindMember(v.members, name) else None
  }

  /** The keys "id", "name" and "type". */
  const ID: Text := [105, 100]
  const NAME: Text := [110, 97, 109, 101]
  const TYPE: Text := [116, 121, 112, 101]

  function Ascii(s: string): (t: Text)
    requires forall i :: 0 <= i < |s| ==> s[i] as int < 256
    ensures |t| == |s|
  {
    seq(|s|, i requires 0 <= i < |s| => s[i] as int)
  }
}
