/** The caller-owned arena that holds the slot values of one message. */
module PlanValue {
  import opened Basics

  datatype Value = Static(text: Bytes) | Owned(text: Bytes)

  class ValueArena {
    var slots: seq<Value>
    var tsBuf: Bytes

    /** What each slot shows. */
    ghost function Contents(): seq<Bytes>
      reads this
    {
      seq(|slots|, i requires 0 <= i < |slots| reads this => slots[i].text)
    }

    constructor ()
      ensures Contents() == [] && tsBuf == []
    {
      slots := [];
      tsBuf := [];
    }

    method Reset()
      modifies this
      ensures Contents() == [] && tsBuf == []
    {
      slots := [];
      tsBuf := [];
    }

    /** Appends a slot and tells its index. */
    method Push(v: Value) returns (index: nat)
      modifies this`slots
      ensures index == |old(Contents())| && Contents() == old(Contents()) + [v.text]
    {
      index := |slots|;
      slots := slots + [v];
    }

    method Set(index: nat, v: Value)
      requires index < |slots|
      modifies this`slots
      ensures Contents() == old(Contents())[index := v.text]
    {
      slots := slots[index := v];
    }

    method Get(index: nat) returns (text: Bytes)
      requires index < |slots|
      ensures text == Contents()[index]
    {
      text := slots[index].text;
    }
  }
}
