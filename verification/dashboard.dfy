/** The hotel dashboard's reducers: the NPS tally over all reservations, the
    per-service occurrence counts and the room-state chart. */
module Dashboard {
  import opened Base
  import opened Services
  import opened Rooms
  import opened Reservations

  // ---------------------------------------------------------------- NPS tally

  datatype Bucket = Promoter | Neutral | Detractor

  /** The bucket a reservation's NPS score falls in: none for the "no
      feedback" score -1, promoter from 9, neutral at 7 and 8, detractor
      below 7 (negative scores other than -1 included). */
  function BucketOf(score: int): (b: Option<Bucket>)
    ensures b.None? <==> score == NO_SCORE
    ensures b.Some? ==> (b.value == Promoter <==> 9 <= score)
    ensures b.Some? ==> (b.value == Detractor <==> score < 7)
  {
    if score == NO_SCORE then None
    else if score >= 9 then Some(Promoter)
    else if score >= 7 then Some(Neutral)
    else Some(Detractor)
  }

  /** Reservations whose score falls in bucket `b`. */
  function CountBucket(rs: seq<Reservation>, b: Bucket): (n: nat)
    ensures n <= |rs|
  {
    if rs == [] then 0
    else CountBucket(rs[..|rs| - 1], b) + (if BucketOf(rs[|rs| - 1].npsScore) == Some(b) then 1 else 0)
  }

  /** Reservations that carry a score. */
  function Scored(rs: seq<Reservation>): (n: nat)
    ensures n <= |rs|
  {
    if rs == [] then 0
    else Scored(rs[..|rs| - 1]) + (if rs[|rs| - 1].npsScore != NO_SCORE then 1 else 0)
  }

  /** Every scored reservation lands in exactly one bucket. */
  lemma {:induction false} BucketsPartitionScored(rs: seq<Reservation>)
    ensures CountBucket(rs, Promoter) + CountBucket(rs, Neutral) + CountBucket(rs, Detractor) == Scored(rs)
  {
    if rs != [] {
      BucketsPartitionScored(rs[..|rs| - 1]);
    }
  }

  /** The accumulator of the NPS `reduce`. */
  datatype NpsTally = NpsTally(promoters: nat, neutrals: nat, detractors: nat)

  /** The NPS `reduce`: one pass over the reservations, incrementing the
      counter of each scored reservation's bucket. */
  method TallyNps(rs: seq<Reservation>) returns (t: NpsTally)
    ensures t.promoters == CountBucket(rs, Promoter)
    ensures t.neutrals == CountBucket(rs, Neutral)
    ensures t.detractors == CountBucket(rs, Detractor)
    ensures t.promoters + t.neutrals + t.detractors == Scored(rs)
  {
    t := NpsTally(0, 0, 0);
    var i := 0;
    while i < |rs|
      invariant 0 <= i <= |rs|
      invariant t == NpsTally(CountBucket(rs[..i], Promoter), CountBucket(rs[..i], Neutral),
                              CountBucket(rs[..i], Detractor))
    {
      assert rs[..i + 1][..i] == rs[..i];
      var rating := rs[i].npsScore;
      if rating == NO_SCORE {
      } else if rating >= 9 {
        t := t.(promoters := t.promoters + 1);
      } else if rating >= 7 {
        t := t.(neutrals := t.neutrals + 1);
      } else {
        t := t.(detractors := t.detractors + 1);
      }
      i := i + 1;
    }
    assert rs[..i] == rs;
    BucketsPartitionScored(rs);
  }

  // -------------------------------------------------------- service occurrences

  /** The reservation's `service_ids` include the id. */
  predicate Includes(r: Reservation, id: nat)
  {
    exists k :: 0 <= k < |r.services| && r.services[k].id == id
  }

  /** Reservations whose services include the id. */
  function Occurrences(rs: seq<Reservation>, id: nat): (n: nat)
    ensures n <= |rs|
  {
    if rs == [] then 0
    else Occurrences(rs[..|rs| - 1], id) + (if Includes(rs[|rs| - 1], id) then 1 else 0)
  }

  /** The ids of some services. */
  function Ids(services: seq<Service>): set<nat>
  {
    set k | 0 <= k < |services| :: services[k].id
  }

  /** `countServiceOccurrences`: for each service, in turn, its counter is
      reset to 0 and then incremented once per reservation including it. The
      result has a key for exactly each service id, mapped to the number of
      reservations including it. */
  method CountServiceOccurrences(rs: seq<Reservation>, services: seq<Service>) returns (counts: map<nat, nat>)
    ensures counts.Keys == Ids(services)
    ensures forall id :: id in counts ==> counts[id] == Occurrences(rs, id) <= |rs|
  {
    counts := map[];
    var i := 0;
    while i < |services|
      invariant 0 <= i <= |services|
      invariant counts.Keys == Ids(services[..i])
      invariant forall id :: id in counts ==> counts[id] == Occurrences(rs, id)
    {
      var id := services[i].id;
      counts := counts[id := 0];
      var j := 0;
      while j < |rs|
        invariant 0 <= j <= |rs|
        invariant counts.Keys == Ids(services[..i]) + {id}
        invariant id in counts && counts[id] == Occurrences(rs[..j], id)
        invariant forall x :: x in counts && x != id ==> counts[x] == Occurrences(rs, x)
      {
        assert rs[..j + 1][..j] == rs[..j];
        if Includes(rs[j], id) {
          counts := counts[id := counts[id] + 1];
        }
        j := j + 1;
      }
      assert rs[..j] == rs;
      assert Ids(services[..i + 1]) == Ids(services[..i]) + {id} by {
        assert services[..i + 1] == services[..i] + [services[i]];
        forall x | x in Ids(services[..i + 1]) ensures x in Ids(services[..i]) + {id} {
          var k :| 0 <= k < i + 1 && services[..i + 1][k].id == x;
          if k < i { assert services[..i][k].id == x; }
        }
        forall x | x in Ids(services[..i]) ensures x in Ids(services[..i + 1]) {
          var k :| 0 <= k < i && services[..i][k].id == x;
          assert services[..i + 1][k].id == x;
        }
        assert services[..i + 1][i].id == id;
      }
      i := i + 1;
    }
    assert services[..i] == services;
  }

  // -------------------------------------------------------------- room chart

  /** One bar of a chart: its label and its value. */
  datatype Slice = Slice(title: string, count: nat)

  /** The state a room-chart label names. */
  function LabelState(title: string): Option<RoomState>
  {
    if title == "Free" then Some(Available)
    else if title == "Reserved" then Some(Reserved)
    else if title == "Under Maintenance" then Some(UnderMaintenance)
    else None
  }

  /** The room chart as written: the labels read Reserved, Free, Under
      Maintenance while the values are the available, reserved and
      under-maintenance counts, in that order. */
  function RoomChart(rooms: seq<Room>): (c: seq<Slice>)
    ensures |c| == 3
    ensures LabelState(c[0].title) == Some(Reserved) && c[0].count == CountState(rooms, Available)
    ensures LabelState(c[1].title) == Some(Available) && c[1].count == CountState(rooms, Reserved)
    ensures LabelState(c[2].title) == Some(UnderMaintenance) && c[2].count == CountState(rooms, UnderMaintenance)
    ensures c[0].count + c[1].count + c[2].count == |rooms|
  {
    CountStatePartition(rooms);
    [Slice("Reserved", CountState(rooms, Available)),
     Slice("Free", CountState(rooms, Reserved)),
     Slice("Under Maintenance", CountState(rooms, UnderMaintenance))]
  }

  /** For every set of rooms the bars labelled Reserved and Free show the
      count of the other state, so each shows its own state's count only
      when the available and reserved counts happen to be equal; the third
      bar is right. */
  lemma RoomChartSwapsLabels(rooms: seq<Room>)
    ensures var c := RoomChart(rooms);
            && (c[0].count == CountState(rooms, LabelState(c[0].title).value)
                <==> CountState(rooms, Available) == CountState(rooms, Reserved))
            && (c[1].count == CountState(rooms, LabelState(c[1].title).value)
                <==> CountState(rooms, Available) == CountState(rooms, Reserved))
            && c[2].count == CountState(rooms, LabelState(c[2].title).value)
  {
  }

  /** With a single available room the bar labelled Reserved shows 1 and
      the bar labelled Free shows 0. */
  lemma RoomChartOneFreeRoom(room: Room)
    requires room.state == Available
    ensures var c := RoomChart([room]);
            && LabelState(c[0].title) == Some(Reserved) && c[0].count == 1 && CountState([room], Reserved) == 0
            && LabelState(c[1].title) == Some(Available) && c[1].count == 0 && CountState([room], Available) == 1
  {
    assert [room][..0] == [];
  }

  /** The room chart with each value under the label of its own state: every
      bar shows the number of rooms in the state its label names, and the
      bars add up to all rooms. */
  function LabelledRoomChart(rooms: seq<Room>): (c: seq<Slice>)
    ensures |c| == 3
    ensures forall k :: 0 <= k < |c| ==>
              LabelState(c[k].title).Some? && c[k].count == CountState(rooms, LabelState(c[k].title).value)
    ensures LabelState(c[0].title) != LabelState(c[1].title) && LabelState(c[1].title) != LabelState(c[2].title)
            && LabelState(c[0].title) != LabelState(c[2].title)
    ensures c[0].count + c[1].count + c[2].count == |rooms|
  {
    CountStatePartition(rooms);
    [Slice("Reserved", CountState(rooms, Reserved)),
     Slice("Free", CountState(rooms, Available)),
     Slice("Under Maintenance", CountState(rooms, UnderMaintenance))]
  }
}
