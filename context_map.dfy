/** A dictionary indexed by command contexts: every context is converted to
    the id of its guild, or to its author's id when there is no guild, and
    that id is the real key. */
module ContextMaps {
  import opened Common
  import opened Platform

  /** The slot a context is stored under. */
  function ConvertKey(ctx: Context): (k: int)
    ensures ctx.guild.Some? ==> k == ctx.guild.value.id
    ensures ctx.guild.None? ==> k == ctx.author.Id()
  {
    if ctx.guild.Some? then ctx.guild.value.id else ctx.author.Id()
  }

  /** Any two contexts of one guild share a slot, whoever wrote them. */
  lemma SameGuildSameSlot(c1: Context, c2: Context)
    requires c1.guild.Some? && c2.guild.Some? && c1.guild.value.id == c2.guild.value.id
    ensures ConvertKey(c1) == ConvertKey(c2)
  {
  }

  /** What a membership test is given: a context, which is converted, or any
      other value, which is looked up as it is. */
  datatype Item = ContextItem(ctx: Context) | RawItem(key: int)

  datatype LookupError = KeyError(key: int)

  datatype Fetched<V> = Found(value: V) | Missing(error: LookupError)

  class ContextMap<V> {
    /** The instance dictionary that holds the entries, by converted key. */
    var entries: map<int, V>

    constructor ()
      ensures entries == map[]
    {
      entries := map[];
    }

    /** `m[ctx] = v`: the converted slot now holds `v`; the map grows by one
        only when the slot was empty. */
    method Set(ctx: Context, v: V)
      modifies this
      ensures entries == old(entries)[ConvertKey(ctx) := v]
      ensures |entries| == |old(entries)| + (if ConvertKey(ctx) in old(entries) then 0 else 1)
    {
      var k := ConvertKey(ctx);
      if k in entries {
        assert entries[k := v].Keys == entries.Keys;
      } else {
        assert entries[k := v].Keys == entries.Keys + {k};
      }
      entries := entries[k := v];
    }

    /** `m[ctx]`: the value of the converted slot, or a key error. */
    method Get(ctx: Context) returns (r: Fetched<V>)
      ensures r.Found? <==> ConvertKey(ctx) in entries
      ensures r.Found? ==> r.value == entries[ConvertKey(ctx)]
      ensures r.Missing? ==> r.error == KeyError(ConvertKey(ctx))
    {
      var k := ConvertKey(ctx);
      if k in entries {
        r := Found(entries[k]);
      } else {
        r := Missing(KeyError(k));
      }
    }

    /** `del m[ctx]`: removes the converted slot and nothing else, or
        reports a key error and changes nothing. */
    method Delete(ctx: Context) returns (err: Option<LookupError>)
      modifies this
      ensures err.None? <==> ConvertKey(ctx) in old(entries)
      ensures err.Some? ==> err.value == KeyError(ConvertKey(ctx))
      ensures entries == old(entries) - {ConvertKey(ctx)}
      ensures err.None? ==> |entries| == |old(entries)| - 1
    {
      var k := ConvertKey(ctx);
      if k in entries {
        assert (entries - {k}).Keys == entries.Keys - {k};
        entries := entries - {k};
        err := None;
      } else {
        err := Some(KeyError(k));
      }
    }

    /** `item in m`: a context is converted first, anything else is a raw key. */
    method Contains(item: Item) returns (b: bool)
      ensures item.ContextItem? ==> (b <==> ConvertKey(item.ctx) in entries)
      ensures item.RawItem? ==> (b <==> item.key in entries)
    {
      var k := if item.ContextItem? then ConvertKey(item.ctx) else item.key;
      b := k in entries;
    }

    /** `len(m)`: the number of occupied slots. */
    method Len() returns (n: nat)
      ensures n == |entries|
    {
      n := |entries|;
    }

    /** `m.clear()`: afterwards the map is empty and its length is 0. */
    method Clear()
      modifies this
      ensures entries == map[] && |entries| == 0
    {
      entries := map[];
    }
  }

  /** Two contexts of one guild write the same slot: the second write wins,
      a read through either context sees it, and the length does not grow. */
  method OverwriteInSameGuild<V>(m: ContextMap<V>, c1: Context, c2: Context, v: V, w: V)
    returns (seen: Fetched<V>, lenAfterFirst: nat, lenAfterSecond: nat)
    requires c1.guild.Some? && c2.guild.Some? && c1.guild.value.id == c2.guild.value.id
    modifies m
    ensures seen == Found(w)
    ensures lenAfterSecond == lenAfterFirst
    ensures m.entries == old(m.entries)[ConvertKey(c1) := w]
  {
    SameGuildSameSlot(c1, c2);
    m.Set(c1, v);
    lenAfterFirst := m.Len();
    m.Set(c2, w);
    lenAfterSecond := m.Len();
    seen := m.Get(c1);
  }
}
