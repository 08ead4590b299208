/** JSON as the service meets it: ordered trees on the wire, unordered values once decoded. */
module Json {

  /** A parsed document, members in wire order and numbers by spelling. */
  datatype Tree =
    | Null
    | Bool(b: bool)
    | Num(spelling: string)
    | Str(s: string)
    | Arr(items: seq<Tree>)
    | Obj(members: seq<Member>)

  datatype Member = Member(name: string, value: Tree)

  /** A decoded document: objects are maps. */
  datatype Value =
    | VNull
    | VBool(b: bool)
    | VNum(spelling: string)
    | VStr(s: string)
    | VArr(items: seq<Value>)
    | VObj(members: map<string, Value>)
}
