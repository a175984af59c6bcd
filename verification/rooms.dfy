/** Rooms (hotel.room): the three-state room lifecycle driven by operator
    buttons, the stored capacity derived from the bed counts, and the room
    number drawn from a sequence when the caller leaves it unset. */
module Rooms {
  import opened Base

  /** The selection field `state`; a room is created `Available`. */
  datatype RoomState = Available | Reserved | UnderMaintenance

  datatype Room = Room(
    roomNo: string,
    singleBed: int,
    doubleBed: int,
    capacity: int,
    price: int,
    state: RoomState,
    product: Option<nat>,
    incomeAccount: Option<nat>)

  /** What a caller passes to `create`; missing entries take the field defaults. */
  datatype RoomVals = RoomVals(
    roomNo: Option<string>,
    singleBed: int,
    doubleBed: int,
    price: int,
    state: Option<RoomState>,
    product: Option<nat>,
    incomeAccount: Option<nat>)

  /** Sleeping places: one per single bed, two per double bed. */
  function Capacity(singleBed: int, doubleBed: int): int
  {
    singleBed + 2 * doubleBed
  }

  /** The stored capacity agrees with the current bed counts. */
  predicate CapacityCurrent(r: Room)
  {
    r.capacity == Capacity(r.singleBed, r.doubleBed)
  }

  /** Number of rooms in state `st`. */
  function CountState(rooms: seq<Room>, st: RoomState): (n: nat)
    ensures n <= |rooms|
  {
    if rooms == [] then 0
    else CountState(rooms[..|rooms| - 1], st) + (if rooms[|rooms| - 1].state == st then 1 else 0)
  }

  /** The table of room records, in creation order; a room is referred to
      by its position. */
  class RoomTable {
    var rooms: seq<Room>

    /** Every stored capacity is up to date with its bed counts. */
    ghost predicate Valid()
      reads this
    {
      forall j :: 0 <= j < |rooms| ==> CapacityCurrent(rooms[j])
    }

    constructor ()
      ensures Valid() && rooms == []
    {
      rooms := [];
    }

    /** `create`: the room number comes from the sequence only when the
        caller left it missing or "New"; capacity is computed from the beds
        and the state defaults to available. */
    method Create(vals: RoomVals, next: Option<string>) returns (j: nat)
      requires Valid()
      modifies this
      ensures Valid()
      ensures j == old(|rooms|) && |rooms| == j + 1 && rooms[..j] == old(rooms)
      ensures rooms[j].roomNo == SequenceOrNew(vals.roomNo, next)
      ensures vals.roomNo.Some? && vals.roomNo.value != NEW ==> rooms[j].roomNo == vals.roomNo.value
      ensures rooms[j].capacity == vals.singleBed + 2 * vals.doubleBed
      ensures rooms[j].state == (if vals.state.Some? then vals.state.value else Available)
      ensures rooms[j] == Room(rooms[j].roomNo, vals.singleBed, vals.doubleBed, rooms[j].capacity,
                               vals.price, rooms[j].state, vals.product, vals.incomeAccount)
    {
      var st := if vals.state.Some? then vals.state.value else Available;
      var room := Room(SequenceOrNew(vals.roomNo, next), vals.singleBed, vals.doubleBed,
                       Capacity(vals.singleBed, vals.doubleBed), vals.price, st,
                       vals.product, vals.incomeAccount);
      j := |rooms|;
      rooms := rooms + [room];
    }

    /** Writing the bed counts recomputes the stored capacity. */
    method WriteBeds(j: nat, singleBed: int, doubleBed: int)
      requires Valid() && j < |rooms|
      modifies this
      ensures Valid()
      ensures rooms == old(rooms)[j := old(rooms)[j].(singleBed := singleBed, doubleBed := doubleBed,
                                                       capacity := singleBed + 2 * doubleBed)]
    {
      rooms := rooms[j := rooms[j].(singleBed := singleBed, doubleBed := doubleBed,
                                    capacity := Capacity(singleBed, doubleBed))];
    }

    /** Writes the `state` field of room `j`; nothing else changes. */
    method SetState(j: nat, st: RoomState)
      requires Valid() && j < |rooms|
      modifies this
      ensures Valid()
      ensures rooms == old(rooms)[j := old(rooms)[j].(state := st)]
    {
      rooms := rooms[j := rooms[j].(state := st)];
    }

    /** `button_free`: available, from any state. */
    method ButtonFree(j: nat)
      requires Valid() && j < |rooms|
      modifies this
      ensures Valid()
      ensures rooms == old(rooms)[j := old(rooms)[j].(state := Available)]
    {
      SetState(j, Available);
    }

    /** `button_reserve`: reserved, from any state. */
    method ButtonReserve(j: nat)
      requires Valid() && j < |rooms|
      modifies this
      ensures Valid()
      ensures rooms == old(rooms)[j := old(rooms)[j].(state := Reserved)]
    {
      SetState(j, Reserved);
    }

    /** `button_maintenance`: under maintenance, from any state. */
    method ButtonMaintenance(j: nat)
      requires Valid() && j < |rooms|
      modifies this
      ensures Valid()
      ensures rooms == old(rooms)[j := old(rooms)[j].(state := UnderMaintenance)]
    {
      SetState(j, UnderMaintenance);
    }
  }

  /** Counting rooms by state partitions the table: every room is in
      exactly one of the three states. */
  lemma {:induction false} CountStatePartition(rooms: seq<Room>)
    ensures CountState(rooms, Available) + CountState(rooms, Reserved)
            + CountState(rooms, UnderMaintenance) == |rooms|
  {
    if rooms != [] {
      CountStatePartition(rooms[..|rooms| - 1]);
    }
  }

  /** A state write changes the counts by moving one room between states. */
  lemma {:induction false} CountStateAfterWrite(rooms: seq<Room>, j: nat, st: RoomState, s: RoomState)
    requires j < |rooms|
    ensures CountState(rooms[j := rooms[j].(state := st)], s)
            == CountState(rooms, s) - (if rooms[j].state == s then 1 else 0) + (if st == s then 1 else 0)
  {
    var rooms' := rooms[j := rooms[j].(state := st)];
    var n := |rooms|;
    if j < n - 1 {
      assert rooms'[..n - 1] == rooms[..n - 1][j := rooms[j].(state := st)];
      assert rooms'[n - 1] == rooms[n - 1];
      CountStateAfterWrite(rooms[..n - 1], j, st, s);
    } else {
      assert rooms'[..n - 1] == rooms[..n - 1];
      assert rooms'[n - 1].state == st;
    }
  }
}
