/** The writer as it runs, appending to one buffer, and the object operations. */
module JsonWriter {
  import opened Basics
  import opened Utf8
  import opened JsonModel
  import opened JsonNumbers
  import opened JsonRoundTrip

  class Writer {
    const f: Floats
    var out: Bytes

    constructor (f: Floats)
      ensures this.f == f && out == []
    {
      this.f, out := f, [];
    }

    method WriteEscaped(s: Bytes)
      modifies this
      ensures out == old(out) + Quoted(s)
    {
      out := out + [QUOTE];
      ghost var start := out;
      var i := 0;
      assert s[0..] == s;
      while i < |s|
        invariant i <= |s| && out + EscapedBytes(s[i..]) == start + EscapedBytes(s)
      {
        assert s[i..][0] == s[i] && s[i..][1..] == s[i + 1..];
        assert out + (EscapedByte(s[i]) + EscapedBytes(s[i + 1..])) == out + EscapedByte(s[i]) + EscapedBytes(s[i + 1..]);
        out := out + EscapedByte(s[i]);
        i := i + 1;
      }
      assert out + [] == out;
      out := out + [QUOTE];
    }

    /** Appends the value's text. */
    method Write(v: Json)
      requires FloatsOk(f)
      modifies this
      ensures out == old(out) + Text(f, v)
      decreases v, 1
    {
      match v
      case Null => out := out + JsonModel.NULL;
      case Bool(b) => out := out + if b then TRUE else FALSE;
      case Int(n) => out := out + IntText(n);
      case Num(d) => out := out + if f.finite(d) then f.text(d) else JsonModel.NULL;
      case Str(s) => WriteEscaped(s);
      case Arr(_) => WriteArray(v);
      case Obj(_) => WriteObject(v);
    }

    /** A comma goes before an element unless the buffer ends in the opening bracket: no element's own
        text ends that way. */
    method WriteArray(v: Json)
      requires v.Arr? && FloatsOk(f)
      modifies this
      ensures out == old(out) + ([LBRACKET] + ElementsText(f, v, 0) + [RBRACKET])
      decreases v, 0
    {
      hide *;
      var elements := v.elements;
      out := out + [LBRACKET];
      ghost var start := out;
      var i := 0;
      PendingEnds(f, v);
      while i < |elements|
        invariant i <= |elements| && out != []
        invariant out[|out| - 1] == LBRACKET <==> i == 0
        invariant out + Pending(f, v, i) == start + ElementsText(f, v, 0)
      {
        ghost var before := out;
        PendingStep(f, v, i);
        if out[|out| - 1] != LBRACKET {
          out := out + [COMMA];
        }
        Write(elements[i]);
        LastByte(f, elements[i]);
        assert out[|out| - 1] == Text(f, elements[i])[|Text(f, elements[i])| - 1];
        assert out == before + ((if i > 0 then [COMMA] else []) + Text(f, elements[i]));
        JoinOn(before, (if i > 0 then [COMMA] else []) + Text(f, elements[i]), Pending(f, v, i + 1));
        i := i + 1;
      }
      assert out + [] == out;
      out := out + [RBRACKET];
    }

    method WriteObject(v: Json)
      requires v.Obj? && FloatsOk(f)
      modifies this
      ensures out == old(out) + ([LBRACE] + MembersText(f, v, 0) + [RBRACE])
      decreases v, 0
    {
      hide *;
      var members := v.members;
      out := out + [LBRACE];
      ghost var start := out;
      var first := true;
      var i := 0;
      PendingMembersEnds(f, v);
      while i < |members|
        invariant i <= |members| && first == (i == 0)
        invariant out + PendingMembers(f, v, i) == start + MembersText(f, v, 0)
      {
        ghost var before := out;
        PendingMembersStep(f, v, i);
        if !first {
          out := out + [COMMA];
        }
        first := false;
        WriteEscaped(members[i].key);
        out := out + [COLON];
        Write(members[i].value);
        ghost var one := Quoted(members[i].key) + [COLON] + Text(f, members[i].value);
        assert out == before + ((if i > 0 then [COMMA] else []) + one);
        JoinOn(before, (if i > 0 then [COMMA] else []) + one, PendingMembers(f, v, i + 1));
        i := i + 1;
      }
      assert out + [] == out;
      out := out + [RBRACE];
    }
  }

  lemma {:induction false} JoinOn(a: Bytes, b: Bytes, c: Bytes)
    ensures a + b + c == a + (b + c)
  {
  }

  /** What is still to be written of an array, i elements in. */
  ghost function Pending(f: Floats, v: Json, i: nat): Bytes
    requires v.Arr? && i <= |v.elements|
  {
    (if 0 < i < |v.elements| then [COMMA] else []) + ElementsText(f, v, i)
  }

  lemma {:induction false} PendingEnds(f: Floats, v: Json)
    requires v.Arr?
    ensures Pending(f, v, 0) == ElementsText(f, v, 0) && Pending(f, v, |v.elements|) == []
  {
  }

  lemma {:induction false} PendingStep(f: Floats, v: Json, i: nat)
    requires v.Arr? && i < |v.elements|
    ensures Pending(f, v, i) == (if i > 0 then [COMMA] else []) + Text(f, v.elements[i]) + Pending(f, v, i + 1)
  {
    hide Text;
    if i + 1 < |v.elements| {
      assert ElementsText(f, v, i) == Text(f, v.elements[i]) + ([COMMA] + ElementsText(f, v, i + 1));
    }
  }

  ghost function PendingMembers(f: Floats, v: Json, i: nat): Bytes
    requires v.Obj? && i <= |v.members|
  {
    (if 0 < i < |v.members| then [COMMA] else []) + MembersText(f, v, i)
  }

  lemma {:induction false} PendingMembersEnds(f: Floats, v: Json)
    requires v.Obj?
    ensures PendingMembers(f, v, 0) == MembersText(f, v, 0) && PendingMembers(f, v, |v.members|) == []
  {
  }

  lemma {:induction false} PendingMembersStep(f: Floats, v: Json, i: nat)
    requires v.Obj? && i < |v.members|
    ensures PendingMembers(f, v, i)
            == (if i > 0 then [COMMA] else []) + (Quoted(v.members[i].key) + [COLON] + Text(f, v.members[i].value)) + PendingMembers(f, v, i + 1)
  {
    hide Text, Quoted;
    var one := Quoted(v.members[i].key) + [COLON] + Text(f, v.members[i].value);
    if i + 1 < |v.members| {
      assert MembersText(f, v, i) == one + ([COMMA] + MembersText(f, v, i + 1));
    }
  }

  lemma {:induction false} TokenLast(t: Token)
    requires IsToken(t)
    ensures Spelled(t) != [] && Digit(Spelled(t)[|Spelled(t)| - 1])
  {
    var s := Spelled(t);
    if t.exponent != [] {
      assert s[|s| - 1] == t.exponent[|t.exponent| - 1];
      var d := if t.exponent[1] == PLUS || t.exponent[1] == MINUS then t.exponent[2..] else t.exponent[1..];
      assert d[|d| - 1] == t.exponent[|t.exponent| - 1];
    } else if t.fraction != [] {
      assert s[|s| - 1] == t.fraction[|t.fraction| - 1] == t.fraction[1..][|t.fraction| - 2];
    } else {
      assert s[|s| - 1] == t.whole[|t.whole| - 1];
    }
  }

  /** No value's text ends in an opening bracket. */
  lemma {:induction false} LastByte(f: Floats, v: Json)
    requires FloatsOk(f)
    ensures Text(f, v) != [] && Text(f, v)[|Text(f, v)| - 1] != LBRACKET
  {
    match v
    case Int(n) =>
      var t := IntToken(n);
      TokenLast(t);
    case Num(d) =>
      if f.finite(d) {
        var t := FloatToken(f, d);
        TokenLast(t);
      }
    case _ =>
  }

  // ---- object operations --------------------------------------------------------------------------

  /** Replaces in place, or appends. */
  function Put(members: seq<Member>, key: Bytes, value: Json): seq<Member> {
    if members == [] then [Member(key, value)]
    else if members[0].key == key then [Member(key, value)] + members[1..]
    else [members[0]] + Put(members[1..], key, value)
  }

  function Find(members: seq<Member>, key: Bytes): Option<Json> {
    if members == [] then None else if members[0].key == key then Some(members[0].value) else Find(members[1..], key)
  }

  /** A key that was set is found with its new value; every other key finds what it found before. */
  lemma {:induction false} PutThenFind(members: seq<Member>, key: Bytes, value: Json, other: Bytes)
    ensures Find(Put(members, key, value), other) == if other == key then Some(value) else Find(members, other)
  {
    if members != [] && members[0].key != key {
      PutThenFind(members[1..], key, value, other);
    }
  }

  function KeysOf(members: seq<Member>): seq<Bytes> {
    if members == [] then [] else [members[0].key] + KeysOf(members[1..])
  }

  /** Setting an old key keeps every key in its place; a new key goes last. */
  lemma {:induction false} PutKeepsPlaces(members: seq<Member>, key: Bytes, value: Json)
    ensures KeysOf(Put(members, key, value)) == if key in KeysOf(members) then KeysOf(members) else KeysOf(members) + [key]
  {
    if members != [] {
      PutKeepsPlaces(members[1..], key, value);
    }
  }
}
