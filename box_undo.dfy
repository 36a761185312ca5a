/** The undo records for creating and deleting a custom box
    (src/undo/CreateCustomBoxUndo.ts, src/undo/DeleteCustomBoxUndo.ts). Both
    hold the viewer's shared name-to-box map by reference and edit it in
    place. A box is modelled only by its identity and its name. */
module BoxUndo {

  /** A custom box, as the undo records see it. */
  class CustomBox {
    const name: string

    constructor(name: string)
      ensures this.name == name
    {
      this.name := name;
    }
  }

  /** The shared `Map<string, CustomBox>` the records edit. */
  class CustomBoxMap {
    var boxes: map<string, CustomBox>

    constructor()
      ensures boxes == map[]
    {
      boxes := map[];
    }
  }

  /** `map.set(box.name, box)`: the box is found under its name and every
      other name keeps its binding. */
  function Bind(m: map<string, CustomBox>, b: CustomBox): (r: map<string, CustomBox>)
    ensures b.name in r && r[b.name] == b
    ensures forall k :: k != b.name ==> (k in r ==> k in m && r[k] == m[k])
    ensures forall k :: k != b.name ==> (k in m ==> k in r && r[k] == m[k])
  {
    m[b.name := b]
  }

  /** `map.delete(box.name)`: the name is unbound and every other name keeps
      its binding. */
  function Unbind(m: map<string, CustomBox>, b: CustomBox): (r: map<string, CustomBox>)
    ensures b.name !in r
    ensures forall k :: k != b.name ==> (k in r ==> k in m && r[k] == m[k])
    ensures forall k :: k != b.name ==> (k in m ==> k in r && r[k] == m[k])
  {
    m - {b.name}
  }

  /** Binding twice is binding once; so is unbinding. */
  lemma BindUnbindIdempotent(m: map<string, CustomBox>, b: CustomBox)
    ensures Bind(Bind(m, b), b) == Bind(m, b)
    ensures Unbind(Unbind(m, b), b) == Unbind(m, b)
  {
  }

  /** Unbinding after binding leaves the name unbound whatever it was bound
      to before, and binding after unbinding leaves it bound to the box:
      the last of the two steps decides. */
  lemma LastStepDecides(m: map<string, CustomBox>, b: CustomBox)
    ensures Unbind(Bind(m, b), b) == Unbind(m, b)
    ensures Bind(Unbind(m, b), b) == Bind(m, b)
  {
    var u := Unbind(Bind(m, b), b);
    assert u.Keys == Unbind(m, b).Keys;
    var v := Bind(Unbind(m, b), b);
    assert v.Keys == Bind(m, b).Keys;
  }

  /** Binding restores a map that held the box under its name: undoing the
      unbinding of a bound box gives the map back. */
  lemma BindRestores(m: map<string, CustomBox>, b: CustomBox)
    requires b.name in m && m[b.name] == b
    ensures Bind(Unbind(m, b), b) == m
  {
    LastStepDecides(m, b);
    assert Bind(m, b) == m;
  }

  /** Unbinding restores a map that did not hold the name: undoing the
      binding of a new name gives the map back. */
  lemma UnbindRestores(m: map<string, CustomBox>, b: CustomBox)
    requires b.name !in m
    ensures Unbind(Bind(m, b), b) == m
  {
    LastStepDecides(m, b);
    assert Unbind(m, b) == m;
  }

  /** The record of a box being created: undo removes it, redo puts it back. */
  class CreateCustomBoxUndo {
    const customBoxMap: CustomBoxMap
    const customBox: CustomBox

    constructor(customBoxMap: CustomBoxMap, customBox: CustomBox)
      ensures this.customBoxMap == customBoxMap && this.customBox == customBox
    {
      this.customBoxMap := customBoxMap;
      this.customBox := customBox;
    }

    method Undo()
      modifies customBoxMap
      ensures customBoxMap.boxes == Unbind(old(customBoxMap.boxes), customBox)
    {
      customBoxMap.boxes := customBoxMap.boxes - {customBox.name};
    }

    method Redo()
      modifies customBoxMap
      ensures customBoxMap.boxes == Bind(old(customBoxMap.boxes), customBox)
    {
      customBoxMap.boxes := customBoxMap.boxes[customBox.name := customBox];
    }
  }

  /** The record of a box being deleted: undo puts it back, redo removes it. */
  class DeleteCustomBoxUndo {
    const customBoxMap: CustomBoxMap
    const customBox: CustomBox

    constructor(customBoxMap: CustomBoxMap, customBox: CustomBox)
      ensures this.customBoxMap == customBoxMap && this.customBox == customBox
    {
      this.customBoxMap := customBoxMap;
      this.customBox := customBox;
    }

    method Undo()
      modifies customBoxMap
      ensures customBoxMap.boxes == Bind(old(customBoxMap.boxes), customBox)
    {
      customBoxMap.boxes := customBoxMap.boxes[customBox.name := customBox];
    }

    method Redo()
      modifies customBoxMap
      ensures customBoxMap.boxes == Unbind(old(customBoxMap.boxes), customBox)
    {
      customBoxMap.boxes := customBoxMap.boxes - {customBox.name};
    }
  }
}
