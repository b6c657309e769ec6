/** The OSS plugin's unwrapping of the hardware pointer: `oss_start` and the pointer-based branch of
    `oss_pointer`. */
module OssPointer {
  import opened Remainders

  datatype Outcome = Frames(n: nat) | Underrun | Failed

  /** What the device reports on a poll: the position in its buffer, unless the request fails, and the free
      space, unless that request fails. */
  datatype Report = Report(ptr: int, pointerOk: bool, space: int, spaceOk: bool)

  /** The two counters that one poll leaves behind. */
  datatype Counters = Counters(ptr: int, last: int)

  function Advanced(c: Counters, bufsz: int, align: int, at: int): Counters
    requires align > 0
  {
    Counters((c.ptr + (if at < c.last then bufsz else 0) + at - c.last) % align, at)
  }

  class Oss {
    var bufsz: int
    var ptr: int
    var lastBytes: int
    const ptrAlign: int
    const frameBytes: int
    var running: bool

    ghost predicate Valid()
      reads this
    {
      ptrAlign > 0 && frameBytes > 0 && bufsz > 0 && 0 <= ptr < ptrAlign && 0 <= lastBytes < bufsz
    }

    ghost function Now(): Counters
      reads this
    {
      Counters(ptr, lastBytes)
    }

    constructor (ptrAlign: int, frameBytes: int)
      ensures this.ptrAlign == ptrAlign && this.frameBytes == frameBytes && !running
    {
      this.ptrAlign, this.frameBytes := ptrAlign, frameBytes;
      bufsz, ptr, lastBytes, running := 0, 0, 0, false;
    }

    /** `oss_start` once the trigger is set: takes over the device's buffer size and position. */
    method Start(fragsize: int, fragstotal: int, at: int)
      requires ptrAlign > 0 && frameBytes > 0 && fragsize * fragstotal > 0 && 0 <= at < fragsize * fragstotal
      modifies this
      ensures Valid() && bufsz == fragsize * fragstotal && Now() == Counters(0, at) && running
    {
      if bufsz != fragsize * fragstotal {
        bufsz := fragsize * fragstotal;
      }
      lastBytes := at;
      ptr := 0;
      running := true;
    }

    /** `oss_pointer`. An underrun leaves the counters alone. */
    method Pointer(r: Report) returns (o: Outcome)
      requires Valid() && (r.pointerOk ==> 0 <= r.ptr < bufsz)
      modifies this`ptr, this`lastBytes
      ensures Valid()
      ensures !running ==> o == Frames(0) && Now() == old(Now())
      ensures running && !r.pointerOk ==> o == Failed && Now() == old(Now())
      ensures running && r.pointerOk ==>
                if r.ptr == old(lastBytes) && (!r.spaceOk || r.space == bufsz)
                then o == Underrun && Now() == old(Now())
                else Now() == Advanced(old(Now()), bufsz, ptrAlign, r.ptr) && o == Frames(ptr / frameBytes)
    {
      if !running {
        return Frames(0);
      }
      if !r.pointerOk {
        return Failed;
      }
      if r.ptr == lastBytes && (!r.spaceOk || r.space == bufsz) {
        return Underrun;
      }
      if r.ptr < lastBytes {
        ptr := ptr + bufsz;
      }
      ptr := ptr + r.ptr;
      ptr := ptr - lastBytes;
      assert ptr >= 0;   // so that C's remainder is the one used here
      ptr := ptr % ptrAlign;
      lastBytes := r.ptr;
      o := Frames(ptr / frameBytes);
    }
  }

  /** True byte positions at successive polls never go back. */
  ghost predicate Forward(at: seq<int>) {
    forall i :: 0 < i < |at| ==> at[i - 1] <= at[i]
  }

  /** The counters after polls at true positions `at[0]` (the start), `at[1]`, ..., of which the device reports
      the remainder. */
  function Polled(at: seq<int>, bufsz: nat, align: nat): Counters
    requires at != [] && bufsz > 0 && align > 0
  {
    if |at| == 1 then Counters(0, at[0] % bufsz)
    else Advanced(Polled(at[..|at| - 1], bufsz, align), bufsz, align, at[|at| - 1] % bufsz)
  }

  /** What the device ran through unseen: whole buffers between two polls. */
  function Lost(at: seq<int>, bufsz: nat): int
    requires bufsz > 0
  {
    if |at| < 2 then 0
    else Lost(at[..|at| - 1], bufsz) + Rounds((at[|at| - 1] - at[|at| - 2]) / bufsz, bufsz)
  }

  /** Unwrapping one step gives the distance, but for whole buffers. */
  lemma StepDistance(p: int, p': int, bufsz: nat)
    requires bufsz > 0 && p <= p'
    ensures (if p' % bufsz < p % bufsz then bufsz else 0) + p' % bufsz - p % bufsz
         == (p' - p) - Rounds((p' - p) / bufsz, bufsz)
  {
    hide Rounds;
    var a := Divided(p, bufsz);
    var b := Divided(p', bufsz);
    RoundsSum(b - a, a, bufsz);
    RoundsSum(b - a - 1, 1, bufsz);
    OneRound(bufsz);
    if p' % bufsz < p % bufsz {
      RemainderIs(p' - p, bufsz, b - a - 1, bufsz + p' % bufsz - p % bufsz);
    } else {
      RemainderIs(p' - p, bufsz, b - a, p' % bufsz - p % bufsz);
    }
  }

  lemma AdvancedStep(c: Counters, p: int, p': int, bufsz: nat, align: nat)
    requires bufsz > 0 && align > 0 && p <= p' && c.last == p % bufsz
    ensures Advanced(c, bufsz, align, p' % bufsz)
         == Counters((c.ptr + ((p' - p) - Rounds((p' - p) / bufsz, bufsz))) % align, p' % bufsz)
  {
    StepDistance(p, p', bufsz);
    hide Rounds;
  }

  lemma JoinSteps(x: int, d: int, sum: int, n: nat)
    requires n > 0 && sum == x + d
    ensures (x % n + d) % n == sum % n
  {
    RemainderSum(x, d, n);
  }

  lemma OneRound(n: int)
    ensures Rounds(1, n) == n
  {
  }

  /** Over any run of polls the last report is kept, and the pointer is the distance run through less the whole
      buffers that passed unseen. */
  lemma {:induction false} PointerTracks(at: seq<int>, bufsz: nat, align: nat)
    requires at != [] && bufsz > 0 && align > 0 && Forward(at)
    ensures Polled(at, bufsz, align).last == at[|at| - 1] % bufsz
    ensures Polled(at, bufsz, align).ptr == (at[|at| - 1] - at[0] - Lost(at, bufsz)) % align
    decreases |at|
  {
    hide Rounds;
    if |at| == 1 {
      ZeroRemainder(align);
    } else {
      var front, p, p' := at[..|at| - 1], at[|at| - 2], at[|at| - 1];
      PointerTracks(front, bufsz, align);
      AdvancedStep(Polled(front, bufsz, align), p, p', bufsz, align);
      hide Advanced;
      JoinSteps(p - at[0] - Lost(front, bufsz), (p' - p) - Rounds((p' - p) / bufsz, bufsz),
                p' - at[0] - Lost(at, bufsz), align);
    }
  }

  lemma ZeroRemainder(n: nat)
    requires n > 0
    ensures 0 % n == 0
  {
  }

  /** So it is right exactly when those add up to whole rounds of the pointer. */
  lemma PointerRightIff(at: seq<int>, bufsz: nat, align: nat)
    requires at != [] && bufsz > 0 && align > 0 && Forward(at)
    ensures Polled(at, bufsz, align).ptr == (at[|at| - 1] - at[0]) % align <==> Lost(at, bufsz) % align == 0
  {
    PointerTracks(at, bufsz, align);
    SameRemainderIff(at[|at| - 1] - at[0], at[|at| - 1] - at[0] - Lost(at, bufsz), align);
    hide Lost, Polled;
    assert (at[|at| - 1] - at[0]) - (at[|at| - 1] - at[0] - Lost(at, bufsz)) == Lost(at, bufsz);
  }

  /** Polls less than one buffer apart. */
  ghost predicate Frequent(at: seq<int>, bufsz: nat) {
    forall i :: 0 < i < |at| ==> at[i - 1] <= at[i] < at[i - 1] + bufsz
  }

  lemma {:induction false} FrequentLosesNothing(at: seq<int>, bufsz: nat)
    requires bufsz > 0 && Frequent(at, bufsz)
    ensures Lost(at, bufsz) == 0
    decreases |at|
  {
    if |at| >= 2 {
      FrequentLosesNothing(at[..|at| - 1], bufsz);
      assert at[|at| - 2] <= at[|at| - 1] < at[|at| - 2] + bufsz;
      assert Rounds(0, bufsz) == 0;
      RemainderIs(at[|at| - 1] - at[|at| - 2], bufsz, 0, at[|at| - 1] - at[|at| - 2]);
    }
  }

  /** Polled often enough, the pointer is the true distance from the start. */
  lemma FrequentPollsAreExact(at: seq<int>, bufsz: nat, align: nat)
    requires at != [] && bufsz > 0 && align > 0 && Frequent(at, bufsz)
    ensures Polled(at, bufsz, align) == Counters((at[|at| - 1] - at[0]) % align, at[|at| - 1] % bufsz)
  {
    FrequentLosesNothing(at, bufsz);
    PointerTracks(at, bufsz, align);
  }

  /** One poll too late: a whole buffer of 4 bytes passes unseen, and the pointer stays behind. */
  lemma LatePollIsWrong()
    ensures Polled([0, 5], 4, 16).ptr == 1
  {
    assert [0, 5][..1] == [0];
  }
}
