/** The log and the buffer cache together: what log_write, write_log and install_trans do through the
    cache is what the log's model says they do to the disk and to the blocks as clients see them. */
module LogCache {
  import opened Prelude
  import opened Blocks
  import Bio
  import LogSpec
  import LogDevice

  /** The log's disk is the cache's; home blocks have the values last logged, others those on disk. */
  ghost predicate Joined(c: LogSpec.Config, dev: nat, disk: map<Bio.Key, Block>, last: map<Bio.Key, Block>,
                         d: LogSpec.Disk, view: LogSpec.Disk)
  {
    && dev != 0
    && forall b: nat | b < c.nblocks :: Same(c, dev, disk, last, d, view, b)
  }

  ghost predicate Same(c: LogSpec.Config, dev: nat, disk: map<Bio.Key, Block>, last: map<Bio.Key, Block>,
                       d: LogSpec.Disk, view: LogSpec.Disk, b: nat)
  {
    var k := Bio.Key(dev, b);
    && k in disk && k in last && b in d && disk[k] == d[b]
    && (if c.IsHome(b) then b in view && last[k] == view[b] else last[k] == d[b])
  }

  ghost predicate Both(cache: Bio.BCache, log: LogDevice.Log, dev: nat)
    reads cache, log
  {
    cache.Valid() && Joined(log.c, dev, cache.disk, cache.last, log.disk, log.view)
  }

  /** t has buffer i locked for block b, with nothing unwritten in it. */
  ghost predicate Has(cache: Bio.BCache, t: Bio.Pid, i: nat, dev: nat, b: nat)
    reads cache
  {
    && i < Bio.NBUF && i < |cache.bufs| && i < |cache.uses| && Bio.Use(t, Bio.Key(dev, b)) in cache.uses[i]
    && cache.bufs[i].holder == Some(t) && cache.bufs[i].key == Bio.Key(dev, b) && i !in cache.dirty
  }

  /** log_write of a home block that t has read and changed. */
  method LogWrite(cache: Bio.BCache, log: LogDevice.Log, dev: nat, t: Bio.Pid, i: nat, b: nat)
    requires Both(cache, log, dev) && log.c.IsHome(b) && !LogSpec.LogWritePanics(log.c, log.Mach(0))
    requires i < Bio.NBUF && i < |cache.bufs| && cache.bufs[i].holder == Some(t) && cache.bufs[i].valid
    requires cache.bufs[i].key == Bio.Key(dev, b)
    modifies cache, log
    ensures Both(cache, log, dev) && log.disk == old(log.disk)
    ensures log.view == old(log.view)[b := old(cache.bufs)[i].data]
  {
    var v := cache.bufs[i].data;
    assert Same(log.c, dev, cache.disk, cache.last, log.disk, log.view, b);
    cache.LogWrite(t, i);
    log.LogWrite(b, v);
    JoinedLog(log.c, dev, old(cache.disk), old(cache.last), log.disk, old(log.view), b, v);
  }

  /** The body of write_log: the home block is read through the cache and written to its slot, and
      what is read is what clients last logged. */
  method WriteSlot(cache: Bio.BCache, log: LogDevice.Log, dev: nat, t: Bio.Pid, from: nat, to: nat, tail: nat)
    requires Both(cache, log, dev) && log.c.Valid() && LogSpec.GoodList(log.c, log.lh) && tail < |log.lh|
    requires Has(cache, t, from, dev, log.lh[tail]) && Has(cache, t, to, dev, log.c.start + tail + 1)
    modifies cache, log
    ensures Both(cache, log, dev) && log.view == old(log.view) && log.lh == old(log.lh) && log.lh[tail] in log.view
    ensures log.disk == old(log.disk)[log.c.start + tail + 1 := log.view[log.lh[tail]]]
  {
    hide Joined;
    var b, slot := log.lh[tail], log.c.start + tail + 1;
    assert log.c.IsHome(b) && !log.c.IsHome(slot) && slot < log.c.nblocks;
    JoinedAt(log.c, dev, cache.disk, cache.last, log.disk, log.view, b);
    JoinedAt(log.c, dev, cache.disk, cache.last, log.disk, log.view, slot);
    var v := CopyBlock(cache, t, dev, from, b, to, slot);
    log.Bwrite(slot, v);
    JoinedWrite(log.c, dev, old(cache.disk), old(cache.last), old(log.disk), log.view, slot, v);
  }

  /** Reads two blocks and writes the first one's bytes to the second. */
  method CopyBlock(cache: Bio.BCache, t: Bio.Pid, dev: nat, from: nat, b: nat, to: nat, b': nat) returns (v: Block)
    requires cache.Valid() && dev != 0 && b != b' && Has(cache, t, from, dev, b) && Has(cache, t, to, dev, b')
    requires Bio.Key(dev, b) in cache.disk && Bio.Key(dev, b') in cache.disk
    modifies cache
    ensures cache.Valid() && Bio.Key(dev, b) in old(cache.last) && v == old(cache.last)[Bio.Key(dev, b)]
    ensures cache.disk == old(cache.disk)[Bio.Key(dev, b') := v] && cache.last == old(cache.last)[Bio.Key(dev, b') := v]
  {
    hide Bio.CacheInv, Bio.Linked;
    cache.Bread(t, to, Bio.Key(dev, b'));
    cache.Bread(t, from, Bio.Key(dev, b));
    v := cache.bufs[from].data;
    cache.Modify(t, to, v);
    cache.Bwrite(t, to);
  }

  lemma JoinedAt(c: LogSpec.Config, dev: nat, disk: map<Bio.Key, Block>, last: map<Bio.Key, Block>,
                 d: LogSpec.Disk, view: LogSpec.Disk, b: nat)
    requires Joined(c, dev, disk, last, d, view) && b < c.nblocks
    ensures dev != 0 && Same(c, dev, disk, last, d, view, b)
  {
  }

  /** The body of install_trans after a commit: the slot is read and written to the home block. */
  method InstallBlock(cache: Bio.BCache, log: LogDevice.Log, dev: nat, t: Bio.Pid, from: nat, to: nat, tail: nat)
    requires Both(cache, log, dev) && log.c.Valid() && LogSpec.GoodList(log.c, log.lh) && tail < |log.lh|
    requires Has(cache, t, from, dev, log.c.start + tail + 1) && Has(cache, t, to, dev, log.lh[tail])
    requires log.c.start + tail + 1 in log.disk && log.lh[tail] in log.view
    requires log.disk[log.c.start + tail + 1] == log.view[log.lh[tail]]
    modifies cache, log
    ensures Both(cache, log, dev) && log.view == old(log.view) && log.lh == old(log.lh)
    ensures log.disk == old(log.disk)[log.lh[tail] := old(log.disk)[log.c.start + tail + 1]]
  {
    hide Joined;
    var b, slot := log.lh[tail], log.c.start + tail + 1;
    assert log.c.IsHome(b) && !log.c.IsHome(slot) && slot < log.c.nblocks;
    JoinedAt(log.c, dev, cache.disk, cache.last, log.disk, log.view, b);
    JoinedAt(log.c, dev, cache.disk, cache.last, log.disk, log.view, slot);
    var v := CopyBlock(cache, t, dev, from, slot, to, b);
    log.Bwrite(b, v);
    JoinedWrite(log.c, dev, old(cache.disk), old(cache.last), old(log.disk), log.view, b, v);
  }

  lemma JoinedWrite(c: LogSpec.Config, dev: nat, disk: map<Bio.Key, Block>, last: map<Bio.Key, Block>,
                    d: LogSpec.Disk, view: LogSpec.Disk, b: nat, v: Block)
    requires Joined(c, dev, disk, last, d, view) && (c.IsHome(b) ==> b in view && view[b] == v)
    ensures Joined(c, dev, disk[Bio.Key(dev, b) := v], last[Bio.Key(dev, b) := v], d[b := v], view)
  {
    var disk', last', d' := disk[Bio.Key(dev, b) := v], last[Bio.Key(dev, b) := v], d[b := v];
    forall x: nat | x < c.nblocks ensures Same(c, dev, disk', last', d', view, x) {
      assert Same(c, dev, disk, last, d, view, x);
    }
  }

  lemma JoinedLog(c: LogSpec.Config, dev: nat, disk: map<Bio.Key, Block>, last: map<Bio.Key, Block>,
                  d: LogSpec.Disk, view: LogSpec.Disk, b: nat, v: Block)
    requires Joined(c, dev, disk, last, d, view) && c.IsHome(b)
    ensures Joined(c, dev, disk, last[Bio.Key(dev, b) := v], d, view[b := v])
  {
    var last', view' := last[Bio.Key(dev, b) := v], view[b := v];
    forall x: nat | x < c.nblocks ensures Same(c, dev, disk, last', d, view', x) {
      assert Same(c, dev, disk, last, d, view, x);
    }
  }
}
