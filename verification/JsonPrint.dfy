// json.MarshalIndent(v, "", "  ") over a tree of JSON values, and how long it is at least.
module JsonPrint {
  import opened GoStd
  import opened JsonText

  datatype Json = Str(s: string) | Lit(text: string) | Arr(items: seq<Json>) | Obj(fields: Fields)

  // An object's members in order; name is what stands between the quotes, and a member
  // that is not emitted is one omitempty leaves out.
  datatype Fields = End | Field(emit: bool, name: string, value: Json, rest: Fields)

  predicate NoneLeft(fs: Fields) { fs.End? || (!fs.emit && NoneLeft(fs.rest)) }

  // The members that are emitted, in order.
  function Members(fs: Fields): seq<(string, Json)> {
    match fs
    case End => []
    case Field(emit, name, value, rest) => (if emit then [(name, value)] else []) + Members(rest)
  }

  lemma MembersOf(emit: bool, name: string, value: Json, rest: Fields)
    ensures Members(Field(emit, name, value, rest)) == (if emit then [(name, value)] else []) + Members(rest)
    ensures Members(End) == []
  {
  }

  function Spaces(n: nat): (s: string)
    ensures |s| == n
  {
    seq(n, _ => ' ')
  }

  function NewLine(depth: nat): (s: string)
    ensures |s| == 1 + 2 * depth
  {
    "\n" + Spaces(2 * depth)
  }

  function Print(j: Json, depth: nat): string
    decreases j
  {
    match j
    case Str(s) => Quoted(s)
    case Lit(text) => text
    case Arr(items) =>
      if items == [] then "[]" else "[" + PrintItems(items, depth + 1) + NewLine(depth) + "]"
    case Obj(fields) =>
      if NoneLeft(fields) then "{}" else "{" + PrintFields(fields, depth + 1) + NewLine(depth) + "}"
  }

  function PrintItems(items: seq<Json>, depth: nat): string
    decreases items
  {
    if items == [] then ""
    else
      NewLine(depth) + Print(items[0], depth) + (if |items| == 1 then "" else "," + PrintItems(items[1..], depth))
  }

  function PrintFields(fs: Fields, depth: nat): string
    decreases fs
  {
    match fs
    case End => ""
    case Field(emit, name, value, rest) =>
      if !emit then PrintFields(rest, depth)
      else
        NewLine(depth) + "\"" + name + "\": " + Print(value, depth)
          + (if NoneLeft(rest) then "" else "," + PrintFields(rest, depth))
  }

  // ---- the layout: one member or item a line, two spaces a level ----

  function MemberLines(ms: seq<(string, Json)>, depth: nat): seq<string> {
    seq(|ms|, k requires 0 <= k < |ms| => Spaces(2 * depth) + "\"" + ms[k].0 + "\": " + Print(ms[k].1, depth))
  }

  function ItemLines(items: seq<Json>, depth: nat): seq<string> {
    seq(|items|, k requires 0 <= k < |items| => Spaces(2 * depth) + Print(items[k], depth))
  }

  lemma JoinCons(line: string, lines: seq<string>, sep: string)
    ensures Join([line] + lines, sep) == if lines == [] then line else line + sep + Join(lines, sep)
  {
    assert ([line] + lines)[1..] == lines;
  }

  lemma {:induction false} NoneLeftIff(fs: Fields)
    ensures NoneLeft(fs) <==> Members(fs) == []
  {
    match fs
    case End =>
    case Field(_, _, _, rest) => NoneLeftIff(rest);
  }

  lemma {:induction false} FieldsAreLines(fs: Fields, depth: nat)
    ensures PrintFields(fs, depth) ==
      if Members(fs) == [] then "" else "\n" + Join(MemberLines(Members(fs), depth), ",\n")
  {
    match fs
    case End =>
    case Field(emit, name, value, rest) =>
      FieldsAreLines(rest, depth);
      NoneLeftIff(rest);
      MembersOf(emit, name, value, rest);
      if emit {
        OneMoreLine(name, value, rest, depth);
      } else {
        assert [] + Members(rest) == Members(rest);
      }
  }

  lemma OneMoreLine(name: string, value: Json, rest: Fields, depth: nat)
    requires NoneLeft(rest) <==> Members(rest) == []
    requires PrintFields(rest, depth) ==
      if Members(rest) == [] then "" else "\n" + Join(MemberLines(Members(rest), depth), ",\n")
    ensures PrintFields(Field(true, name, value, rest), depth) ==
      "\n" + Join(MemberLines([(name, value)] + Members(rest), depth), ",\n")
  {
    var line := Spaces(2 * depth) + "\"" + name + "\": " + Print(value, depth);
    var lines := MemberLines(Members(rest), depth);
    var more := if NoneLeft(rest) then "" else "," + PrintFields(rest, depth);
    assert MemberLines([(name, value)] + Members(rest), depth) == [line] + lines;
    assert PrintFields(Field(true, name, value, rest), depth) ==
      NewLine(depth) + "\"" + name + "\": " + Print(value, depth) + more;
    assert NewLine(depth) == "\n" + Spaces(2 * depth);
    assert lines == [] <==> Members(rest) == [];
    hide Members, Print, PrintFields, MemberLines, NoneLeft, NewLine, Spaces, Join;
    JoinCons(line, lines, ",\n");
    LineThenMore(Spaces(2 * depth), name, Print(value, depth), Join(lines, ",\n"));
  }

  lemma LineThenMore(indent: string, name: string, value: string, more: string)
    ensures var line := indent + "\"" + name + "\": " + value;
      && "\n" + indent + "\"" + name + "\": " + value + "" == "\n" + line
      && "\n" + indent + "\"" + name + "\": " + value + ("," + ("\n" + more)) == "\n" + (line + ",\n" + more)
  {
    var line := indent + "\"" + name + "\": " + value;
    assert "\n" + indent + "\"" + name + "\": " + value == "\n" + line;
    assert ("\n" + line) + ("," + ("\n" + more)) == "\n" + (line + (("," + "\n") + more));
    assert "," + "\n" == ",\n";
  }

  lemma {:induction false} ItemsAreLines(items: seq<Json>, depth: nat)
    ensures PrintItems(items, depth) == if items == [] then "" else "\n" + Join(ItemLines(items, depth), ",\n")
    decreases |items|
  {
    if items == [] {
    } else {
      var rest := items[1..];
      var line := Spaces(2 * depth) + Print(items[0], depth);
      ItemsAreLines(rest, depth);
      assert ItemLines(items, depth) == [line] + ItemLines(rest, depth);
      JoinCons(line, ItemLines(rest, depth), ",\n");
      ItemThenMore(Spaces(2 * depth), Print(items[0], depth), Join(ItemLines(rest, depth), ",\n"));
    }
  }

  lemma ItemThenMore(indent: string, value: string, more: string)
    ensures "\n" + indent + value + "" == "\n" + (indent + value)
    ensures "\n" + indent + value + ("," + ("\n" + more)) == "\n" + (indent + value + ",\n" + more)
  {
    assert ("\n" + indent + value) + ("," + ("\n" + more)) == "\n" + (indent + value + (("," + "\n") + more));
    assert "," + "\n" == ",\n";
  }

  // An object or an array as it is laid out: its brackets, and between them a line for each
  // member or item, one level in, with a comma after each but the last.
  lemma PrintLayout(fs: Fields, items: seq<Json>, depth: nat)
    ensures Print(Obj(fs), depth) ==
      if Members(fs) == [] then "{}"
      else "{" + ("\n" + Join(MemberLines(Members(fs), depth + 1), ",\n")) + ("\n" + Spaces(2 * depth)) + "}"
    ensures Print(Arr(items), depth) ==
      if items == [] then "[]"
      else "[" + ("\n" + Join(ItemLines(items, depth + 1), ",\n")) + ("\n" + Spaces(2 * depth)) + "]"
    ensures forall k :: 0 <= k < |Spaces(2 * depth)| ==> Spaces(2 * depth)[k] == ' '
  {
    NoneLeftIff(fs);
    FieldsAreLines(fs, depth + 1);
    ItemsAreLines(items, depth + 1);
  }

  // ---- the length without white space ----

  function Bare(j: Json): nat
    decreases j
  {
    match j
    case Str(s) => |Quoted(s)|
    case Lit(text) => |text|
    case Arr(items) => if items == [] then 2 else 1 + BareItems(items)
    case Obj(fields) => if NoneLeft(fields) then 2 else 1 + BareFields(fields)
  }

  // One more than each item: its comma, or the closing bracket.
  function BareItems(items: seq<Json>): nat
    decreases items
  {
    if items == [] then 0 else Bare(items[0]) + 1 + BareItems(items[1..])
  }

  function BareFields(fs: Fields): nat
    decreases fs
  {
    match fs
    case End => 0
    case Field(emit, name, value, rest) => (if emit then |name| + 4 + Bare(value) else 0) + BareFields(rest)
  }

  function Emitted(fs: Fields): nat {
    match fs
    case End => 0
    case Field(emit, _, _, rest) => (if emit then 1 else 0) + Emitted(rest)
  }

  // The items of an array, printed at a depth.
  function ItemsLength(items: seq<Json>, depth: nat): nat {
    if items == [] then 0 else 1 + 2 * depth + |Print(items[0], depth)| + ItemsLength(items[1..], depth)
  }

  lemma {:induction false} PrintAtLeastBare(j: Json, depth: nat)
    ensures |Print(j, depth)| >= Bare(j)
    decreases j
  {
    match j {
      case Str(s) =>
      case Lit(text) =>
      case Arr(items) => if items != [] { PrintItemsAtLeast(items, depth + 1); }
      case Obj(fields) => if !NoneLeft(fields) { PrintFieldsAtLeast(fields, depth + 1); }
    }
  }

  lemma {:induction false} PrintItemsAtLeast(items: seq<Json>, depth: nat)
    requires items != []
    ensures |PrintItems(items, depth)| >= BareItems(items) - 1
    decreases items
  {
    PrintAtLeastBare(items[0], depth);
    if |items| <= 1 {
    } else {
      PrintItemsAtLeast(items[1..], depth);
    }
  }

  // Each member costs its indentation and the space after its colon besides.
  lemma {:induction false} PrintFieldsAtLeast(fs: Fields, depth: nat)
    requires !NoneLeft(fs)
    ensures |PrintFields(fs, depth)| >= BareFields(fs) - 1 + Emitted(fs) * (2 + 2 * depth)
    decreases fs
  {
    hide Print, Bare, Quoted;
    if fs.emit {
      PrintAtLeastBare(fs.value, depth);
      if NoneLeft(fs.rest) { NothingLeft(fs.rest); } else { PrintFieldsAtLeast(fs.rest, depth); }
      FieldLength(fs, depth);
      OneMore(Emitted(fs.rest), 2 + 2 * depth);
      hide PrintFields, NoneLeft;
    } else {
      PrintFieldsAtLeast(fs.rest, depth);
    }
  }

  lemma FieldLength(fs: Fields, depth: nat)
    requires fs.Field? && fs.emit
    ensures |PrintFields(fs, depth)| == 5 + 2 * depth + |fs.name| + |Print(fs.value, depth)|
      + (if NoneLeft(fs.rest) then 0 else 1 + |PrintFields(fs.rest, depth)|)
  {
    hide Print, NoneLeft;
  }

  lemma OneMore(n: nat, k: nat)
    ensures (1 + n) * k == k + n * k
  {
  }

  lemma {:induction false} NothingLeft(fs: Fields)
    requires NoneLeft(fs)
    ensures BareFields(fs) == 0 && Emitted(fs) == 0
  {
    if !fs.End? { NothingLeft(fs.rest); }
  }

  lemma PrintArray(items: seq<Json>, depth: nat)
    ensures |Print(Arr(items), depth)| ==
      if items == [] then 2 else 2 + ItemsLength(items, depth + 1) + |items| + 2 * depth
  {
    if items != [] { PrintedItems(items, depth + 1); }
  }

  lemma {:induction false} PrintedItems(items: seq<Json>, depth: nat)
    requires items != []
    ensures |PrintItems(items, depth)| == ItemsLength(items, depth) + |items| - 1
  {
    if |items| <= 1 {
    } else {
      PrintedItems(items[1..], depth);
    }
  }

  // ---- slices of strings ----

  function Strings(ss: seq<string>): seq<Json> { seq(|ss|, k requires 0 <= k < |ss| => Str(ss[k])) }

  // What the walk charges a slice of strings.
  function StringsCost(ss: seq<string>): nat {
    if ss == [] then 0 else StringCost(ss[0]) + StringsCost(ss[1..])
  }

  function StringCost(s: string): nat { if s == "" then 0 else |Quoted(s)| }

  lemma {:induction false} StringsAtLeast(ss: seq<string>)
    ensures BareItems(Strings(ss)) >= StringsCost(ss) + |ss|
  {
    if ss == [] {
    } else {
      assert Strings(ss)[1..] == Strings(ss[1..]);
      StringsAtLeast(ss[1..]);
    }
  }

  lemma ArrayOfStrings(ss: seq<string>)
    ensures Bare(Arr(Strings(ss))) >= 2 + StringsCost(ss)
  {
    StringsAtLeast(ss);
  }
}
