/** The enumerations the codecs look names and codes up in (MacroControl, Modifier,
    KeyCode, MouseButton, RGBMode). Their definitions are not part of this model,
    so each is an abstract table of (name, value) members, and every lemma states
    the few facts about the tables it relies on. */
module Constants {
  import opened Wrappers
  import opened Bytes

  datatype Member = Member(name: string, value: int)

  /** An enumeration, in declaration order. */
  type Table = seq<Member>

  /** `name in E`: some member is called `name`. */
  predicate HasName(t: Table, name: string)
  {
    exists i :: 0 <= i < |t| && t[i].name == name
  }

  /** `v in E`: some member has code `v`. */
  predicate HasValue(t: Table, v: int)
  {
    exists i :: 0 <= i < |t| && t[i].value == v
  }

  /** `E[name].value`; `None` is the KeyError. */
  function ValueOf(t: Table, name: string): (r: Option<int>)
    ensures r.Some? <==> HasName(t, name)
    ensures r.Some? ==> Member(name, r.value) in t
  {
    if t == [] then None
    else if t[0].name == name then Some(t[0].value)
    else
      var r := ValueOf(t[1..], name);
      assert HasName(t[1..], name) ==> HasName(t, name) by {
        if HasName(t[1..], name) {
          var i :| 0 <= i < |t[1..]| && t[1..][i].name == name;
          assert t[i + 1].name == name;
        }
      }
      r
  }

  /** `E(v).name`; `None` is the ValueError. */
  function NameOf(t: Table, v: int): (r: Option<string>)
    ensures r.Some? <==> HasValue(t, v)
    ensures r.Some? ==> Member(r.value, v) in t
  {
    if t == [] then None
    else if t[0].value == v then Some(t[0].name)
    else
      var r := NameOf(t[1..], v);
      assert HasValue(t[1..], v) ==> HasValue(t, v) by {
        if HasValue(t[1..], v) {
          var i :| 0 <= i < |t[1..]| && t[1..][i].value == v;
          assert t[i + 1].value == v;
        }
      }
      r
  }

  /** No two members share a name or a code. */
  predicate Distinct(t: Table)
  {
    forall i, j :: 0 <= i < j < |t| ==> t[i].name != t[j].name && t[i].value != t[j].value
  }

  /** In a table without duplicates a member's name and code determine each other. */
  lemma {:induction false} NameValueAgree(t: Table, name: string, v: int)
    requires Distinct(t) && Member(name, v) in t
    ensures ValueOf(t, name) == Some(v) && NameOf(t, v) == Some(name)
  {
    if t[0] != Member(name, v) {
      assert Member(name, v) in t[1..];
      var k :| 0 <= k < |t| && t[k] == Member(name, v);
      assert t[0].name != name && t[0].value != v by {
        assert 0 < k;
      }
      NameValueAgree(t[1..], name, v);
    }
  }

  /** MacroControl: the thirteen opcodes the codec names, and any further members. */
  datatype MacroControl = MacroControl(
    keyDown: byte, keyUp: byte, btnDown: byte, btnUp: byte,
    wheel: byte, wheelh: byte, move: byte, sleep: byte,
    pause: byte, repeat: byte, loop: byte, nextPage: byte, macroEnd: byte,
    others: Table)

  function Members(mc: MacroControl): (t: Table)
    ensures |t| == 13 + |mc.others|
  {
    [ Member("key_down", mc.keyDown), Member("key_up", mc.keyUp),
      Member("btn_down", mc.btnDown), Member("btn_up", mc.btnUp),
      Member("wheel", mc.wheel), Member("wheelh", mc.wheelh),
      Member("move", mc.move), Member("sleep", mc.sleep),
      Member("pause", mc.pause), Member("repeat", mc.repeat), Member("loop", mc.loop),
      Member("next_page", mc.nextPage), Member("macro_end", mc.macroEnd) ]
    + mc.others
  }

  /** `op in MacroControl` */
  predicate IsOp(mc: MacroControl, op: int)
  {
    HasValue(Members(mc), op)
  }

  /** The five enumerations, as the codecs see them. */
  datatype Tables = Tables(
    macro: MacroControl,
    modifier: Table,
    keyCode: Table,
    mouseButton: Table,
    rgbMode: Table)

  /** What the text form relies on: names and codes are unique within each table,
      and no key name contains `(` (a key token is recognised by having none). */
  predicate Valid(t: Tables)
  {
    && Distinct(Members(t.macro))
    && Distinct(t.modifier)
    && Distinct(t.keyCode)
    && Distinct(t.mouseButton)
    && Distinct(t.rgbMode)
    && (forall i :: 0 <= i < |t.modifier| ==> '(' !in t.modifier[i].name)
    && (forall i :: 0 <= i < |t.keyCode| ==> '(' !in t.keyCode[i].name)
  }
}
