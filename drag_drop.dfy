/** What the drag-and-drop library reports when a drag ends; both front-ends receive it. */
module DragDrop {
  import opened Wrappers

  /** A list position reported by the drag-and-drop library. */
  datatype Location = Location(droppableId: string, index: nat)

  /**
   * The end of a drag: where it started and, unless dropped outside every
   * list, where it ended. `dragType` is the `type` of the list it started in.
   */
  datatype DropResult = DropResult(source: Location, destination: Option<Location>, dragType: string)
}
