/** The file appender as it runs: one buffer filled and spilled in place, and a stream that rotation replaces. */
module LogFiles {
  import M = LogModel

  /** A stream and the file it appends to. Writing needs an open stream. */
  class File {
    var data: string
    var open: bool

    constructor ()
      ensures data == "" && open
    {
      data, open := "", true;
    }

    method Write(text: string) returns (n: nat)
      requires open
      modifies this
      ensures open && data == old(data) + text && n == |text|
    {
      data := data + text;
      n := |text|;
    }

    /** `fflush`. */
    method Flush()
      requires open
    {
    }

    method Close()
      requires open
      modifies this
      ensures !open && data == old(data)
    {
      open := false;
    }
  }

  ghost function Texts(fs: seq<File>): (r: seq<string>)
    reads fs
    ensures |r| == |fs| && forall i :: 0 <= i < |fs| ==> r[i] == fs[i].data
  {
    if fs == [] then [] else Texts(fs[..|fs| - 1]) + [fs[|fs| - 1].data]
  }

  ghost predicate Distinct(fs: seq<File>) {
    forall i, j :: 0 <= i < j < |fs| ==> fs[i] != fs[j]
  }

  method NewStream(rst: string) returns (f: File)
    ensures fresh(f) && f.open && f.data == rst
  {
    f := new File();
    if rst != "" { var _ := f.Write(rst); }
  }

  lemma OneMore(fs: seq<File>, f: File)
    ensures Texts(fs + [f]) == Texts(fs) + [f.data]
    ensures Distinct(fs) && f !in fs ==> Distinct(fs + [f])
  {
    assert (fs + [f])[..|fs|] == fs;
  }

  /** `struct file_log`. */
  class FileLog {
    const buf: array<char>
    const buf_size: int
    const switch_size: int
    const switch_time: int
    var sw_day: int
    var fp: File?
    var file_count: int
    var w_size: int
    var w_pos: int
    ghost var files: seq<File>

    ghost predicate Valid()
      reads this, files
    {
      && buf.Length == buf_size && 0 <= w_pos <= buf_size
      && fp == (if files == [] then null else files[|files| - 1])
      && Distinct(files)
      && (fp != null ==> fp.open) && (fp == null ==> w_pos == 0 && w_size == 0 && file_count == 0)
    }

    ghost function Model(): M.Log
      requires Valid()
      reads this, buf, files
    {
      M.Log(Texts(files), buf[..w_pos], buf_size, w_size, switch_size, switch_time, sw_day, file_count)
    }

    /** `log_initialize_file`. */
    constructor (buf_size: int, switch_time: int, switch_size: int)
      requires buf_size > 0
      ensures Valid() && fp == null && fresh(buf)
      ensures M.Init(Model()) == M.Started(buf_size, switch_size, switch_time)
    {
      this.buf_size, this.switch_size, this.switch_time := buf_size, switch_size, switch_time;
      buf := new char[buf_size](_ => '\0');
      fp, file_count, w_size, w_pos, sw_day := null, 0, 0, 0, 0;
      files := [];
      new;
      assert buf[..w_pos] == "";
    }

    /** Between the old stream and the new one. */
    ghost predicate Detached()
      reads this, files
    {
      && buf.Length == buf_size && 0 == w_pos <= buf_size && fp == null && w_size == 0
      && Distinct(files)
    }

    /** The old stream is closed; what was in the buffer is kept aside. */
    method CloseStream() returns (rst: string)
      requires Valid() && fp != null
      modifies this, files
      ensures Detached() && files == old(files) && Texts(files) == old(Texts(files)) && rst == old(buf[..w_pos])
      ensures file_count == old(file_count) + 1 && sw_day == old(sw_day)
    {
      rst := "";
      if w_pos > 0 { rst := buf[..w_pos]; }
      fp.Close();
      fp := null;
      file_count := file_count + 1;
      w_size := 0;
      w_pos := 0;
    }

    /** A new one is opened, and what was kept is written to it. */
    method OpenStream(rst: string)
      requires Detached()
      modifies this
      ensures Valid() && fp != null && fresh(fp) && files == old(files) + [fp]
      ensures Texts(files) == old(Texts(files)) + [rst] && buf[..w_pos] == ""
      ensures w_size == 0 && file_count == old(file_count) && sw_day == old(sw_day)
    {
      var f := NewStream(rst);
      assert f !in files;
      OneMore(files, f);
      fp := f;
      files := files + [f];
      assert buf[..w_pos] == "";
    }

    /** `log_file_init_callback_fun`. */
    method Init()
      requires Valid()
      modifies this, files
      ensures Valid() && Model() == M.Init(old(Model())) && fp != null
      ensures fresh(fp) && files == old(files) + [fp]
    {
      var rst := "";
      if fp != null { rst := CloseStream(); }
      OpenStream(rst);
    }

    /** `log_file_switch`. */
    method Switch(mday: int, sec: int)
      requires Valid() && fp != null
      modifies this, files
      ensures Valid() && Model() == M.Switch(old(Model()), M.Clock(mday, sec)) && fp != null
      ensures files == old(files) || w_pos == 0
      ensures forall i :: 0 <= i < |files| ==> files[i] in old(files) || fresh(files[i])
    {
      var sw_log := false;
      if switch_time > 0 {
        if mday != sw_day {
          if sec >= switch_time {
            sw_log := true;
            sw_day := mday;
            assert Model() == old(Model()).(swDay := mday);
          }
        }
      }
      if !sw_log {
        if switch_size > 0 && w_size >= switch_size { sw_log := true; }
      }
      if sw_log { Init(); }
    }

    /** What is in the buffer goes to the stream. */
    method Spill()
      requires Valid() && fp != null
      modifies this, files
      ensures Valid() && Model() == M.Spill(old(Model())) && files == old(files) && fp != null && w_pos == 0
    {
      M.SpillNothing(Model().(pending := ""));
      if w_pos > 0 {
        var n := fp.Write(buf[..w_pos]);
        w_size := w_size + n;
        w_pos := 0;
      }
      assert buf[..w_pos] == "";
    }

    /** The message goes straight to the stream. */
    method WriteOut(log: string)
      requires Valid() && fp != null
      modifies this, files
      ensures Valid() && Model() == M.Append(old(Model()), log).(wSize := old(w_size) + |log|)
      ensures files == old(files) && fp != null
    {
      var n := fp.Write(log);
      w_size := w_size + n;
    }

    /** The message goes to the buffer. */
    method Keep(log: string)
      requires Valid() && fp != null && |log| <= buf_size - w_pos
      modifies this, buf
      ensures Valid() && Model() == old(Model()).(pending := old(buf[..w_pos]) + log, wSize := old(w_size) + |log|)
      ensures files == old(files)
    {
      forall i | 0 <= i < |log| { buf[w_pos + i] := log[i]; }
      w_pos := w_pos + |log|;
      w_size := w_size + |log|;
    }

    /** Into the buffer, or behind what is in it. */
    method Put(log: string)
      requires Valid() && fp != null
      modifies this, buf, files
      ensures Valid() && Model() == M.Put(old(Model()), log)
    {
      if |log| > buf_size - w_pos {
        Spill();
        WriteOut(log);
      } else {
        Keep(log);
      }
    }

    /** `log_file_log_callback_fun`; before the first file it fails. */
    method Log(log: string, mday: int, sec: int) returns (ok: bool)
      requires Valid()
      modifies this, buf, files
      ensures Valid() && ok == (old(fp) != null)
      ensures Model() == M.Handle(old(Model()), M.Message(log, M.Clock(mday, sec)))
    {
      if fp == null { return false; }
      Switch(mday, sec);
      Put(log);
      ok := true;
    }

    /**
     * `log_file_flush_callback_fun`. The stream it flushes was fetched before the switch; it is the
     * open one, because a rotation leaves nothing to flush.
     */
    method Flush(mday: int, sec: int)
      requires Valid()
      modifies this, files
      ensures Valid() && Model() == M.Handle(old(Model()), M.Flush(M.Clock(mday, sec)))
    {
      var f := fp;
      if f != null {
        Switch(mday, sec);
        if w_pos > 0 {
          Spill();
          f.Flush();
        } else {
          M.SpillNothing(Model());
        }
      }
    }
  }
}
