/**
 * The copy of a layout that a room action edits in place before publishing it:
 * `{ ...baseLayout, categories: [...baseLayout.categories], rooms: { ...baseLayout.rooms } }`,
 * changed by `setRoomOrderForCategory` and `delete nextLayout.rooms[roomId]`.
 */
module LayoutDrafts {
  import opened Sorting
  import opened Layout
  import opened RoomOrder

  class LayoutDraft {
    var categories: seq<LayoutCategory>
    /** The enumeration order of the keys of `rooms` (insertion order of a JavaScript object). */
    var roomKeys: seq<string>
    var rooms: map<string, Placement>

    /** The layout the draft currently holds. */
    function Value(): SpaceLayout
      reads this
    {
      SpaceLayout(categories, roomKeys, rooms)
    }

    /** A fresh copy of the given layout. */
    constructor (l: SpaceLayout)
      ensures Value() == l
    {
      categories := l.categories;
      roomKeys := l.roomKeys;
      rooms := l.rooms;
    }

    /**
     * `setRoomOrderForCategory(layout, categoryId, roomIds)`: walks the list and
     * assigns each room the category and its index.
     */
    method SetRoomOrderForCategory(categoryId: string, roomIds: seq<string>)
      modifies this
      ensures Value() == WithRoomOrder(old(Value()), categoryId, roomIds)
    {
      ghost var start := Value();
      var i := 0;
      while i < |roomIds|
        invariant 0 <= i <= |roomIds|
        invariant Value() == WithRoomOrder(start, categoryId, roomIds[..i])
      {
        var roomId := roomIds[i];
        assert roomIds[..i + 1][..i] == roomIds[..i];
        if roomId !in rooms {
          roomKeys := roomKeys + [roomId];
        }
        rooms := rooms[roomId := Placement(categoryId, i)];
        i := i + 1;
      }
      assert roomIds[..|roomIds|] == roomIds;
    }

    /** `delete layout.rooms[roomId]`. */
    method DeleteRoom(roomId: string)
      modifies this
      ensures Value() == Unassign(old(Value()), roomId)
    {
      roomKeys := Remove(roomKeys, roomId);
      rooms := rooms - {roomId};
    }
  }
}
