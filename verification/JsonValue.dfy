/** The value that a JSON document denotes, as a standard JSON reader delivers it. */
module JsonValue {
  import opened Bytes
  import opened Numbers
  import opened JsonString
  import opened JsonDoc
  import opened RequestBody

  // ---- values -----------------------------------------------------------------------------------

  /** A value as Python's json module delivers it; a string is its UTF-8 bytes. */
  datatype Py =
    | PyNone
    | PyBool(b: bool)
    | PyInt(n: int)
    | PyFloat(token: bytes)
    | PyStr(s: bytes)
    | PyList(items: seq<Py>)
    | PyDict(entries: map<bytes, Py>)

  function DenoteToken(t: bytes): Py {
    if t == Ascii("null") then PyNone
    else if t == Ascii("true") then PyBool(true)
    else if t == Ascii("false") then PyBool(false)
    else
      match TakeInt(t)
      case Some((n, rest)) => if rest == [] then PyInt(n) else PyFloat(t)
      case None => PyFloat(t)
  }

  /** The value that a document denotes; of equal keys the last counts. */
  function Denote(v: Value): Py
    requires ValueOk(v)
  {
    match v
    case Str(ps) => PyStr(Text(ps))
    case Tok(t) => DenoteToken(t)
    case Arr(_, items) => PyList(DenoteList(items))
    case Obj(_, items) => PyDict(DenoteItems(items))
  }

  function DenoteList(items: Items): seq<Py>
    requires ItemsOk(items)
  {
    if items.Nil? then [] else [Denote(items.v)] + DenoteList(items.rest)
  }

  function DenoteItems(items: Items): map<bytes, Py>
    requires ItemsOk(items)
  {
    if items.Nil? then map[] else map[Text(items.key) := Denote(items.v)] + DenoteItems(items.rest)
  }

  // ---- objects without white space ----------------------------------------------------------------

  datatype Entry = Entry(key: string, v: Value)

  function ItemsOf(ms: seq<Entry>): (r: Items)
    ensures r.Cons? ==> r.pre == []
    ensures r.Nil? <==> ms == []
  {
    if ms == [] then Nil else Member(ms[0].key, ms[0].v, ItemsOf(ms[1..]))
  }

  predicate EntriesOk(ms: seq<Entry>) {
    forall i :: 0 <= i < |ms| ==> Literal(ms[i].key) && ValueOk(ms[i].v)
  }

  predicate Distinct(ms: seq<Entry>) {
    forall i, j :: 0 <= i < j < |ms| ==> ms[i].key != ms[j].key
  }

  lemma {:induction false} ItemsOfOk(ms: seq<Entry>)
    requires EntriesOk(ms)
    ensures ItemsOk(ItemsOf(ms))
  {
    if ms != [] {
      hide Lit, ValueOk;
      assert Literal(ms[0].key) && ValueOk(ms[0].v);
      ItemsOfOk(ms[1..]);
      MemberOk(ms[0].key, ms[0].v, ItemsOf(ms[1..]));
    }
  }

  lemma AsciiInjective(a: string, b: string)
    requires Literal(a) && Literal(b) && Ascii(a) == Ascii(b)
    ensures a == b
  {
    assert |a| == |b|;
    forall i | 0 <= i < |a|
      ensures a[i] == b[i]
    {
      assert Ascii(a)[i] == a[i] as int && Ascii(b)[i] == b[i] as int;
    }
  }

  lemma KeyIs(key: string, v: Value, rest: Items)
    requires ValueOk(v) && ItemsOk(rest)
    ensures ItemsOk(Member(key, v, rest))
    ensures DenoteItems(Member(key, v, rest)) == map[Ascii(key) := Denote(v)] + DenoteItems(rest)
  {
    hide ValueOk, ItemsOk, Pieces, Text;
    MemberOk(key, v, rest);
    PiecesText(ForBody, Ascii(key));
    KeyUnfold(key, v, rest);
  }

  lemma KeyUnfold(key: string, v: Value, rest: Items)
    requires ItemsOk(Member(key, v, rest)) && ValueOk(v) && ItemsOk(rest)
    ensures DenoteItems(Member(key, v, rest)) == map[Text(Lit(key)) := Denote(v)] + DenoteItems(rest)
  {
    hide Pieces, Text;
  }

  /** The keys of a denoted object are the written ones. */
  lemma {:induction false} KeysOf(ms: seq<Entry>, key: string)
    requires EntriesOk(ms) && Literal(key) && ItemsOk(ItemsOf(ms))
    requires forall i :: 0 <= i < |ms| ==> ms[i].key != key
    ensures Ascii(key) !in DenoteItems(ItemsOf(ms))
  {
    if ms != [] {
      hide ValueOk, Denote, Ascii, Lit;
      assert Literal(ms[0].key) && ValueOk(ms[0].v);
      ItemsOfOk(ms[1..]);
      KeysOf(ms[1..], key);
      KeyIs(ms[0].key, ms[0].v, ItemsOf(ms[1..]));
      if Ascii(key) == Ascii(ms[0].key) {
        AsciiInjective(key, ms[0].key);
      }
    }
  }

  /** With distinct keys every entry is found under its key. */
  lemma {:induction false} EntryFound(ms: seq<Entry>, i: nat)
    requires EntriesOk(ms) && Distinct(ms) && i < |ms| && ItemsOk(ItemsOf(ms))
    ensures var m := DenoteItems(ItemsOf(ms));
      Ascii(ms[i].key) in m && m[Ascii(ms[i].key)] == Denote(ms[i].v)
  {
    hide ValueOk, Denote, Ascii, Lit;
    assert Literal(ms[0].key) && ValueOk(ms[0].v);
    ItemsOfOk(ms[1..]);
    KeyIs(ms[0].key, ms[0].v, ItemsOf(ms[1..]));
    if i == 0 {
      KeysOf(ms[1..], ms[0].key);
    } else {
      EntryFound(ms[1..], i - 1);
    }
  }
}
