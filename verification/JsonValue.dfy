/** JSON documents as values, and what json_object_equal says about two of them.

    A C char is a Dafny char (a byte is a char below 256), so a byte string is a
    string.  The sharing and the counts of the C objects are the subject of
    module ObjectStore; here an object is the value it stands for.  */
module JsonValue {
  /** JNull stands for the NULL pointer, which is what json-c uses for JSON null. */
  datatype JValue =
    | JNull
    | JBool(b: bool)
    | JInt(n: int)
    | JDouble(text: string)
    | JString(s: string)
    | JArray(elems: seq<JValue>)
    | JObject(members: seq<Member>)

  /** A member of an object; the members are in insertion order. */
  datatype Member = Member(key: string, val: JValue)

  const INT64_MIN := -0x8000_0000_0000_0000
  const INT64_MAX := 0x7FFF_FFFF_FFFF_FFFF

  /** The position of the member with the given key, or |ms| if there is none. */
  function FindKey(ms: seq<Member>, key: string): (i: nat)
    ensures i <= |ms|
    ensures i < |ms| ==> ms[i].key == key
    ensures forall j | 0 <= j < i :: ms[j].key != key
  {
    if ms == [] then 0
    else if ms[0].key == key then 0
    else 1 + FindKey(ms[1..], key)
  }

  /** json_object_object_add: an existing key keeps its place and gets the new value. */
  function AddMember(ms: seq<Member>, key: string, v: JValue): (r: seq<Member>)
    ensures UniqueKeys(ms) ==> UniqueKeys(r)
    ensures FindKey(ms, key) == |ms| ==> r == ms + [Member(key, v)]
  {
    var i := FindKey(ms, key);
    if i < |ms| then ms[i := Member(key, v)] else ms + [Member(key, v)]
  }

  ghost predicate UniqueKeys(ms: seq<Member>) {
    forall i, j | 0 <= i < j < |ms| :: ms[i].key != ms[j].key
  }
}
