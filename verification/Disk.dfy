/** The files of one store: a directory of table files and the log. Everything the
    store does to them goes through the methods of `FileSystem`, and each of these
    records the images it passes through: what a crash could leave on disk. */
module Disk {
  import opened Bytes
  import opened Names

  type Dir = map<Name, seq<byte>>

  /** What a crash leaves behind. */
  datatype Image = Image(files: Dir, log: seq<byte>)

  /** The images passed while `bytes` are written to the end of a file: any number
      of them may have arrived when a crash comes. */
  function Filling(i: Image, name: Name, bytes: seq<byte>): (images: seq<Image>)
    requires name in i.files
    ensures |images| == |bytes| + 1
  {
    seq(|bytes| + 1, k requires 0 <= k <= |bytes| => i.(files := i.files[name := i.files[name] + bytes[..k]]))
  }

  /** The images passed while `bytes` are written to the end of the log. */
  function Logging(i: Image, bytes: seq<byte>): (images: seq<Image>)
    ensures |images| == |bytes| + 1
  {
    seq(|bytes| + 1, k requires 0 <= k <= |bytes| => i.(log := i.log + bytes[..k]))
  }

  function Created(i: Image, name: Name): Image {
    i.(files := i.files[name := []])
  }

  function Removed(i: Image, name: Name): Image {
    i.(files := i.files - {name})
  }

  /** A file written under a temporary name. */
  function Written(i: Image, name: Name, bytes: seq<byte>): Image {
    i.(files := i.files[name := bytes])
  }

  function Writing(i: Image, name: Name, bytes: seq<byte>): seq<Image> {
    [Created(i, name)] + Filling(Created(i, name), name, bytes)
  }

  /** And then given its final name. */
  function Finished(i: Image, from: Name, to: Name, bytes: seq<byte>): Image {
    i.(files := (i.files - {from})[to := bytes])
  }

  function Publishing(i: Image, from: Name, to: Name, bytes: seq<byte>): seq<Image> {
    Writing(i, from, bytes) + [Finished(i, from, to, bytes)]
  }

  class FileSystem {
    var files: Dir
    var log: seq<byte>
    /** Every image the disk has passed through since it was looked at first. */
    ghost var trace: seq<Image>

    function Now(): Image
      reads this
    {
      Image(files, log)
    }

    constructor (files: Dir, log: seq<byte>)
      ensures this.files == files && this.log == log && trace == []
    {
      this.files := files;
      this.log := log;
      trace := [];
    }

    method Create(name: Name)
      modifies this
      ensures Now() == Created(old(Now()), name) && trace == old(trace) + [Now()]
    {
      files := files[name := []];
      trace := trace + [Now()];
    }

    method Write(name: Name, bytes: seq<byte>)
      requires name in files
      modifies this
      ensures log == old(log) && files == old(files)[name := old(files)[name] + bytes]
      ensures trace == old(trace) + Filling(old(Now()), name, bytes)
    {
      trace := trace + Filling(Now(), name, bytes);
      files := files[name := files[name] + bytes];
    }

    /** Atomic, and durable when it returns. */
    method Rename(from: Name, to: Name)
      requires from in files
      modifies this
      ensures log == old(log) && files == (old(files) - {from})[to := old(files)[from]]
      ensures trace == old(trace) + [Now()]
    {
      files := (files - {from})[to := files[from]];
      trace := trace + [Now()];
    }

    method Remove(name: Name)
      modifies this
      ensures Now() == Removed(old(Now()), name) && trace == old(trace) + [Now()]
    {
      files := files - {name};
      trace := trace + [Now()];
    }

    method AppendLog(bytes: seq<byte>)
      modifies this
      ensures files == old(files) && log == old(log) + bytes
      ensures trace == old(trace) + Logging(old(Now()), bytes)
    {
      trace := trace + Logging(Now(), bytes);
      log := log + bytes;
    }

    method TruncateLog()
      modifies this
      ensures files == old(files) && log == [] && trace == old(trace) + [Now()]
    {
      log := [];
      trace := trace + [Now()];
    }
  }
}
