/** Per-rule metadata in parallel vectors, and the arena of texts kept verbatim. */
module Stores {

  const FORM_VERBATIM: nat := 0
  const FORM_SUBTREE: nat := 1
  const FORM_EXACT: nat := 2
  const FORM_EXACT_CARET: nat := 3
  const FORM_HOSTS_ZERO: nat := 4

  const MAX_SPAN: nat := 255

  /** Continuation bytes of UTF-8 are 0x80 to 0xBF. */
  predicate IsCharBoundary(text: string, at: nat)
    requires at <= |text|
  {
    at == 0 || at == |text| || !(0x80 <= text[at] as int < 0xC0)
  }

  /** The largest character boundary of `text` that is at most `at`. */
  function BoundaryAtOrBelow(text: string, at: nat): (b: nat)
    requires at <= |text|
    ensures b <= at && IsCharBoundary(text, b)
    ensures forall l :: b < l <= at ==> !IsCharBoundary(text, l)
  {
    if IsCharBoundary(text, at) then at else BoundaryAtOrBelow(text, at - 1)
  }

  /** What is displayed of a text kept verbatim: at most 255 bytes, cut between characters. */
  function Shown(text: string): string {
    text[..BoundaryAtOrBelow(text, if |text| <= MAX_SPAN then |text| else MAX_SPAN)]
  }

  /** The contents of a store. */
  datatype StoreView = StoreView(
    lists: seq<nat>, lines: seq<nat>, flags: seq<nat>,
    spanOff: seq<nat>, spanLen: seq<nat>, verbatim: string)
  {
    predicate Parallel() {
      |lists| == |lines| == |flags| == |spanOff| == |spanLen|
    }

    predicate IsExcept(id: nat)
      requires id < |flags|
    {
      flags[id] % 2 == 1
    }

    function Form(id: nat): nat
      requires id < |flags|
    {
      flags[id] / 2
    }

    function Pushed(list: nat, line: nat, except: bool, form: nat): StoreView {
      StoreView(lists + [list], lines + [line], flags + [(if except then 1 else 0) + 2 * form],
                spanOff + [0], spanLen + [0], verbatim)
    }

    function WithVerbatim(id: nat, text: string): StoreView
      requires id < |spanOff| == |spanLen|
    {
      this.(spanOff := spanOff[id := |verbatim|],
            spanLen := spanLen[id := |Shown(text)|],
            verbatim := verbatim + text)
    }
  }

  class Store {
    var lists: seq<nat>
    var lines: seq<nat>
    var flags: seq<nat>
    var spanOff: seq<nat>
    var spanLen: seq<nat>
    var verbatim: string

    function View(): StoreView
      reads this
    {
      StoreView(lists, lines, flags, spanOff, spanLen, verbatim)
    }

    constructor ()
      ensures View() == StoreView([], [], [], [], [], "")
    {
      lists, lines, flags, spanOff, spanLen, verbatim := [], [], [], [], [], "";
    }

    method Push(list: nat, line: nat, except: bool, form: nat) returns (id: nat)
      modifies this
      ensures id == old(|lines|)
      ensures View() == old(View()).Pushed(list, line, except, form)
    {
      id := |lines|;
      lists := lists + [list];
      lines := lines + [line];
      flags := flags + [(if except then 1 else 0) + 2 * form];
      spanOff := spanOff + [0];
      spanLen := spanLen + [0];
    }

    /** Lengths are kept in one byte. */
    method SetSpan(id: nat, off: nat, len: nat)
      requires id < |spanOff| == |spanLen| && len <= 255
      modifies this
      ensures View() == old(View()).(spanOff := old(spanOff)[id := off], spanLen := old(spanLen)[id := len])
    {
      spanOff := spanOff[id := off];
      spanLen := spanLen[id := len];
    }

    method PushVerbatim(id: nat, text: string)
      requires id < |spanOff| == |spanLen|
      modifies this
      ensures View() == old(View()).WithVerbatim(id, text)
    {
      var off := |verbatim|;
      verbatim := verbatim + text;
      var len: nat := if |text| <= MAX_SPAN then |text| else MAX_SPAN;
      ghost var limit := len;
      while !IsCharBoundary(text, len)
        invariant len <= limit <= |text|
        invariant forall l :: len < l <= limit ==> !IsCharBoundary(text, l)
        decreases len
      {
        len := len - 1;
      }
      SetSpan(id, off, len);
    }
  }
}
