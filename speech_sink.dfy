/** The audio sink that turns recorded voice into text: each write appends
    PCM bytes to the speaker's buffer, and every buffer whose recorded time
    is at least three seconds past the writer's last emission is transcribed
    and handed to the text callback; a buffer of six seconds or more makes
    the writer's buffer start over. Transcription is a parameter and the
    callback's invocations are collected in `emitted`. */
module SpeechSink {

  type UserId = int

  newtype byte = x: int | 0 <= x < 256

  /** Seconds of new audio needed before the next transcription. */
  const RecognitionTimeChunk: real := 3.0
  /** Seconds of audio after which the writer's buffer is reset. */
  const BufferCleanTime: real := 6.0

  /** The platform decoder's frame: 20 ms of 48 kHz, 2-channel, 16-bit PCM,
      that is 960 samples of 4 bytes. */
  const FrameSize: nat := 3840
  const FrameLength: nat := 20

  /** Seconds of audio held by a buffer of `nbytes` bytes. */
  function RecordedTime(nbytes: nat): (t: real)
    ensures t * 192000.0 == nbytes as real
  {
    nbytes as real / FrameSize as real * FrameLength as real / 1000.0
  }

  /** Recorded time grows in proportion to the bytes appended. */
  lemma RecordedTimeAdditive(a: nat, b: nat)
    ensures RecordedTime(a + b) == RecordedTime(a) + RecordedTime(b)
    ensures RecordedTime(a) >= 0.0
  {
  }

  /** One invocation of the text callback: the writer and the text. */
  datatype Emission = Emission(user: UserId, text: string)

  /** The loop's running state: the writer's timestamp, the callbacks made
      so far, and whether the writer's buffer has been reset. */
  datatype Scan = Scan(stamp: real, emitted: seq<Emission>, cleared: bool)

  /** One pass of the loop, over one buffer, on behalf of writer `user`. */
  function Step(user: UserId, transcribe: seq<byte> -> string, acc: Scan, buffer: seq<byte>): Scan {
    var t := RecordedTime(|buffer|);
    if t - acc.stamp < RecognitionTimeChunk then acc
    else
      var out := acc.emitted + [Emission(user, transcribe(buffer))];
      if t >= BufferCleanTime then Scan(0.0, out, true) else Scan(t, out, acc.cleared)
  }

  /** The loop over a snapshot of every buffer, in order. */
  function ScanFrom(user: UserId, transcribe: seq<byte> -> string, acc: Scan, buffers: seq<seq<byte>>): Scan
    decreases |buffers|
  {
    if buffers == [] then acc
    else ScanFrom(user, transcribe, Step(user, transcribe, acc, buffers[0]), buffers[1..])
  }

  /** A step transcribes exactly when the gate passes; the new timestamp is
      then the buffer's recorded time, or 0 when that reaches the clean time. */
  lemma StepGate(user: UserId, transcribe: seq<byte> -> string, acc: Scan, buffer: seq<byte>)
    ensures var t := RecordedTime(|buffer|);
      var next := Step(user, transcribe, acc, buffer);
      (t - acc.stamp < RecognitionTimeChunk ==> next == acc)
      && (t - acc.stamp >= RecognitionTimeChunk ==>
            next.emitted == acc.emitted + [Emission(user, transcribe(buffer))]
            && next.stamp == (if t >= BufferCleanTime then 0.0 else t)
            && next.cleared == (acc.cleared || t >= BufferCleanTime))
  {
  }

  /** When no buffer is three seconds past the timestamp, the loop does
      nothing: no transcription, no callback, the timestamp unchanged. */
  lemma {:induction false} ScanQuiet(user: UserId, transcribe: seq<byte> -> string, acc: Scan, buffers: seq<seq<byte>>)
    requires forall k :: 0 <= k < |buffers| ==> RecordedTime(|buffers[k]|) - acc.stamp < RecognitionTimeChunk
    ensures ScanFrom(user, transcribe, acc, buffers) == acc
    decreases |buffers|
  {
    if buffers != [] {
      assert Step(user, transcribe, acc, buffers[0]) == acc;
      assert forall k :: 0 <= k < |buffers[1..]| ==> buffers[1..][k] == buffers[k + 1];
      ScanQuiet(user, transcribe, acc, buffers[1..]);
    }
  }

  /** The loop only adds callbacks, at most one per buffer, each for the
      writer and with the transcription of one of the buffers; a reset
      buffer stays reset. */
  lemma {:induction false} ScanOnlyAppends(user: UserId, transcribe: seq<byte> -> string, acc: Scan, buffers: seq<seq<byte>>)
    ensures var r := ScanFrom(user, transcribe, acc, buffers);
      |acc.emitted| <= |r.emitted| <= |acc.emitted| + |buffers|
      && r.emitted[..|acc.emitted|] == acc.emitted
      && (acc.cleared ==> r.cleared)
    ensures forall e :: e in ScanFrom(user, transcribe, acc, buffers).emitted[|acc.emitted|..] ==>
              e.user == user && exists k :: 0 <= k < |buffers| && e.text == transcribe(buffers[k])
    decreases |buffers|
  {
    if buffers != [] {
      var next := Step(user, transcribe, acc, buffers[0]);
      ScanOnlyAppends(user, transcribe, next, buffers[1..]);
      var r := ScanFrom(user, transcribe, acc, buffers);
      assert r == ScanFrom(user, transcribe, next, buffers[1..]);
      assert next.emitted[..|acc.emitted|] == acc.emitted;
      assert r.emitted[..|acc.emitted|] == r.emitted[..|next.emitted|][..|acc.emitted|];
      forall e | e in r.emitted[|acc.emitted|..]
        ensures e.user == user && exists k :: 0 <= k < |buffers| && e.text == transcribe(buffers[k])
      {
        var idx :| |acc.emitted| <= idx < |r.emitted| && r.emitted[idx] == e;
        if idx < |next.emitted| {
          assert next.emitted == acc.emitted + [Emission(user, transcribe(buffers[0]))];
          assert e == next.emitted[idx];
        } else {
          assert e in r.emitted[|next.emitted|..];
          var k :| 0 <= k < |buffers[1..]| && e.text == transcribe(buffers[1..][k]);
          assert buffers[1..][k] == buffers[k + 1];
        }
      }
    }
  }

  /** The writer's timestamp never reaches the clean time: it is either a
      recorded time below it or has been reset to 0. */
  lemma {:induction false} ScanStampInRange(user: UserId, transcribe: seq<byte> -> string, acc: Scan, buffers: seq<seq<byte>>)
    requires 0.0 <= acc.stamp < BufferCleanTime
    ensures 0.0 <= ScanFrom(user, transcribe, acc, buffers).stamp < BufferCleanTime
    decreases |buffers|
  {
    if buffers != [] {
      ScanStampInRange(user, transcribe, Step(user, transcribe, acc, buffers[0]), buffers[1..]);
    }
  }

  /** The writer's timestamp, 0 when there is none yet. */
  function StampOf(stamps: map<UserId, real>, user: UserId): real {
    if user in stamps then stamps[user] else 0.0
  }

  /** The buffers in creation order, as `get_all_audio` lists them. */
  function Buffers(order: seq<UserId>, data: map<UserId, seq<byte>>): (bs: seq<seq<byte>>)
    requires forall i :: 0 <= i < |order| ==> order[i] in data
    ensures |bs| == |order|
    ensures forall i :: 0 <= i < |order| ==> bs[i] == data[order[i]]
  {
    seq(|order|, i requires 0 <= i < |order| => data[order[i]])
  }

  lemma UpdateTwice<K, V>(m: map<K, V>, k: K, a: V, b: V)
    ensures m[k := a][k := b] == m[k := b]
  {
  }

  class SpeechRecognitionSink {
    /** The users with a buffer, in the order their buffers were created. */
    var speakers: seq<UserId>
    /** Each user's recorded PCM bytes. */
    var audio: map<UserId, seq<byte>>
    /** Each writer's recorded time at its last transcription. */
    var stamps: map<UserId, real>
    /** The text callback's invocations, oldest first. */
    var emitted: seq<Emission>

    ghost predicate Valid()
      reads this
    {
      && (forall i, j :: 0 <= i < j < |speakers| ==> speakers[i] != speakers[j])
      && (forall u :: u in audio <==> u in speakers)
      && (forall u :: u in stamps ==> 0.0 <= stamps[u] < BufferCleanTime)
    }

    constructor ()
      ensures Valid()
      ensures speakers == [] && audio == map[] && stamps == map[] && emitted == []
    {
      speakers, audio, stamps, emitted := [], map[], map[], [];
    }

    /** The base sink's write: create the writer's buffer if it has none,
        then append the bytes to it. */
    method Append(pcm: seq<byte>, user: UserId)
      requires Valid()
      modifies this
      ensures Valid()
      ensures speakers == old(speakers) + (if user in old(audio) then [] else [user])
      ensures audio == old(audio)[user := (if user in old(audio) then old(audio)[user] else []) + pcm]
      ensures stamps == old(stamps) && emitted == old(emitted)
    {
      if user in audio {
        audio := audio[user := audio[user] + pcm];
      } else {
        assert forall i :: 0 <= i < |speakers| ==> speakers[i] != user;
        assert [] + pcm == pcm;
        speakers := speakers + [user];
        audio := audio[user := pcm];
      }
    }

    /** The loop of `write` over a snapshot of the buffers, on behalf of
        writer `user`: only the writer's timestamp and buffer change. */
    method TranscribeReady(buffers: seq<seq<byte>>, user: UserId, transcribe: seq<byte> -> string)
      requires Valid() && user in audio && |buffers| > 0
      modifies this
      ensures Valid()
      ensures speakers == old(speakers)
      ensures var scan := ScanFrom(user, transcribe, Scan(StampOf(old(stamps), user), old(emitted), false), buffers);
        && stamps == old(stamps)[user := scan.stamp]
        && emitted == scan.emitted
        && audio == (if scan.cleared then old(audio)[user := []] else old(audio))
    {
      ghost var acc := Scan(StampOf(stamps, user), emitted, false);
      ghost var whole := ScanFrom(user, transcribe, acc, buffers);
      var i := 0;
      while i < |buffers|
        invariant 0 <= i <= |buffers|
        invariant ScanFrom(user, transcribe, acc, buffers[i..]) == whole
        invariant 0.0 <= acc.stamp < BufferCleanTime
        invariant StampOf(stamps, user) == acc.stamp
        invariant stamps == if i == 0 then old(stamps) else old(stamps)[user := acc.stamp]
        invariant emitted == acc.emitted
        invariant audio == if acc.cleared then old(audio)[user := []] else old(audio)
        invariant speakers == old(speakers)
      {
        var t := RecordedTime(|buffers[i]|);
        // A missing timestamp counts as 0.
        var stamp := StampOf(stamps, user);
        assert buffers[i..][0] == buffers[i] && buffers[i..][1..] == buffers[i + 1..];
        ghost var next := Step(user, transcribe, acc, buffers[i]);
        if t - stamp >= RecognitionTimeChunk {
          stamp := t;
          emitted := emitted + [Emission(user, transcribe(buffers[i]))];
          if t >= BufferCleanTime {
            audio := audio[user := []];
            stamp := 0.0;
          }
        }
        if i > 0 {
          UpdateTwice(old(stamps), user, acc.stamp, stamp);
        }
        stamps := stamps[user := stamp];
        acc := next;
        i := i + 1;
      }
    }

    /** `write`: append the bytes to the writer's buffer, then transcribe
        every buffer that is far enough past the writer's timestamp. Only
        the writer's timestamp and buffer change. */
    method Write(pcm: seq<byte>, user: UserId, transcribe: seq<byte> -> string)
      requires Valid()
      modifies this
      ensures Valid()
      ensures speakers == old(speakers) + (if user in old(audio) then [] else [user])
      ensures var grown := old(audio)[user := (if user in old(audio) then old(audio)[user] else []) + pcm];
        var scan := ScanFrom(user, transcribe, Scan(StampOf(old(stamps), user), old(emitted), false), Buffers(speakers, grown));
        && stamps == old(stamps)[user := scan.stamp]
        && emitted == scan.emitted
        && audio == (if scan.cleared then grown[user := []] else grown)
    {
      Append(pcm, user);
      var buffers := Buffers(speakers, audio);
      assert user in speakers;
      TranscribeReady(buffers, user, transcribe);
    }
  }
}
