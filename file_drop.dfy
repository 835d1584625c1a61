/** The input-file picker (app/widgets/file_drop_widget.py): which paths
    it accepts as videos, the checks a chosen file passes before it is
    announced, and the list of accepted extensions. The message boxes
    become entries of a log of rejections and `file_selected` becomes a
    log of announced paths; whether a file exists and its size are
    observations handed in. */
module FileDrop {
  import opened Text
  import Paths

  /** The extensions a new widget accepts. */
  const DefaultFormats: seq<string> :=
    [".mp4", ".avi", ".mov", ".mkv", ".flv", ".wmv", ".m4v", ".3gp", ".webm"]

  /** The largest file accepted: 2 GiB. */
  const MaxSize: nat := 2 * 1024 * 1024 * 1024

  /** A path is a video when it is not empty and the lower-cased suffix of
      its last component is one of `formats`. */
  predicate Accepts(formats: seq<string>, path: string) {
    path != "" && Lower(Paths.Suffix(path)) in formats
  }

  /** Why a chosen file is turned down. */
  datatype Rejection =
    | Missing(path: string)
    | Unsupported(formats: seq<string>)
    | TooLarge(size: nat)

  /** Every entry lower-cased, in order. */
  function LowerAll(formats: seq<string>): (r: seq<string>)
    ensures |r| == |formats|
    ensures forall i :: 0 <= i < |r| ==> r[i] == Lower(formats[i])
  {
    seq(|formats|, i requires 0 <= i < |formats| => Lower(formats[i]))
  }

  /** `FileDropWidget`: the accepted extensions, the file name on display,
      the announced paths and the rejections shown. */
  class FileDropWidget {
    var supportedFormats: seq<string>
    var shown: Option<string>
    var selected: seq<string>
    var rejections: seq<Rejection>

    constructor ()
      ensures supportedFormats == DefaultFormats && |supportedFormats| == 9
      ensures shown == None && selected == [] && rejections == []
    {
      supportedFormats := DefaultFormats;
      shown := None;
      selected := [];
      rejections := [];
    }

    /** `is_supported_video_file`. */
    predicate IsSupportedVideoFile(path: string)
      reads this
    {
      Accepts(supportedFormats, path)
    }

    /** `handle_file_selection`: a missing file, then an unsupported
        format, then a file over 2 GiB is turned down, each with its own
        message and nothing else; a file that passes all three is shown
        by name and announced. */
    method HandleFileSelection(path: string, present: bool, size: nat)
      modifies this
      ensures supportedFormats == old(supportedFormats)
      ensures !present ==>
        rejections == old(rejections) + [Missing(path)] && selected == old(selected) && shown == old(shown)
      ensures present && !IsSupportedVideoFile(path) ==>
        rejections == old(rejections) + [Unsupported(supportedFormats)]
        && selected == old(selected) && shown == old(shown)
      ensures present && IsSupportedVideoFile(path) && size > MaxSize ==>
        rejections == old(rejections) + [TooLarge(size)] && selected == old(selected) && shown == old(shown)
      ensures present && IsSupportedVideoFile(path) && size <= MaxSize ==>
        rejections == old(rejections) && selected == old(selected) + [path] && shown == Some(Paths.Name(path))
    {
      if !present {
        rejections := rejections + [Missing(path)];
        return;
      }
      if !IsSupportedVideoFile(path) {
        rejections := rejections + [Unsupported(supportedFormats)];
        return;
      }
      if size > MaxSize {
        rejections := rejections + [TooLarge(size)];
        return;
      }
      shown := Some(Paths.Name(path));
      selected := selected + [path];
    }

    /** `get_supported_formats`: the list as a value, so what the caller
        does with it cannot reach the widget's own. */
    function GetSupportedFormats(): (r: seq<string>)
      reads this
      ensures |r| == |supportedFormats| && forall i :: 0 <= i < |r| ==> r[i] == supportedFormats[i]
    {
      supportedFormats
    }

    /** `set_supported_formats`: the new list, every entry lower-cased. */
    method SetSupportedFormats(formats: seq<string>)
      modifies this
      ensures supportedFormats == LowerAll(formats)
      ensures shown == old(shown) && selected == old(selected) && rejections == old(rejections)
    {
      supportedFormats := LowerAll(formats);
    }
  }

  /** Lower-casing twice is lower-casing once. */
  lemma LowerIdempotent(s: string)
    ensures Lower(Lower(s)) == Lower(s)
  {
    assert forall i :: 0 <= i < |s| ==> LowerChar(LowerChar(s[i])) == LowerChar(s[i]);
  }

  /** Setting the list the widget hands out again changes nothing once it
      has been set. */
  lemma LowerAllIdempotent(formats: seq<string>)
    ensures LowerAll(LowerAll(formats)) == LowerAll(formats)
  {
    forall i | 0 <= i < |formats|
      ensures LowerAll(LowerAll(formats))[i] == LowerAll(formats)[i]
    {
      LowerIdempotent(formats[i]);
    }
  }

  /** After `set_supported_formats(fs)` a path is accepted exactly when it
      is not empty and its suffix matches an entry of `fs` up to letter
      case: an upper-case entry works like its lower-case form. */
  lemma SetFormatsAccepts(formats: seq<string>, path: string)
    ensures Accepts(LowerAll(formats), path) <==>
      path != "" && exists i :: 0 <= i < |formats| && Lower(formats[i]) == Lower(Paths.Suffix(path))
  {
    var lowered := LowerAll(formats);
    if Accepts(lowered, path) {
      var i :| 0 <= i < |lowered| && lowered[i] == Lower(Paths.Suffix(path));
      assert Lower(formats[i]) == Lower(Paths.Suffix(path));
    }
    if path != "" && exists i :: 0 <= i < |formats| && Lower(formats[i]) == Lower(Paths.Suffix(path)) {
      var i :| 0 <= i < |formats| && Lower(formats[i]) == Lower(Paths.Suffix(path));
      assert lowered[i] in lowered;
    }
  }

  /** The empty path is never a video, whatever the list. */
  lemma EmptyPathRejected(formats: seq<string>)
    ensures !Accepts(formats, "")
  {
  }

  /** "clip.MP4" is accepted by default: the suffix is lower-cased. */
  lemma UpperCaseSuffixAccepted()
    ensures Accepts(DefaultFormats, "clip.MP4")
  {
    Paths.BareName("clip.MP4", 4);
    assert "clip.MP4"[4..] == ".MP4";
    UpperMp4();
  }

  lemma UpperMp4()
    ensures Lower(".MP4") == DefaultFormats[0]
  {
    assert Lower(".MP4")[1] == 'm' && Lower(".MP4")[2] == 'p';
  }

  /** "a.mp4.bak" is turned down: only the last suffix counts. */
  lemma LastSuffixCounts()
    ensures !Accepts(DefaultFormats, "a.mp4.bak")
  {
    Paths.BareName("a.mp4.bak", 5);
    assert "a.mp4.bak"[5..] == ".bak";
    BakNotDefault();
  }

  lemma BakNotDefault()
    ensures Lower(".bak") !in DefaultFormats
  {
    DefaultSecondChars();
    assert Lower(".bak")[1] == 'b';
  }

  /** The letter after the dot of every default extension. */
  lemma DefaultSecondChars()
    ensures forall f :: f in DefaultFormats ==>
      |f| >= 4 && (f[1] == 'm' || f[1] == 'a' || f[1] == 'f' || f[1] == 'w' || f[1] == '3')
  {
  }

  /** A name without a suffix is turned down. */
  lemma NoSuffixRejected()
    ensures !Accepts(DefaultFormats, "movie")
  {
    Paths.BareName("movie", -1);
    assert Lower("") == "";
  }

  /** So is a hidden file named ".mp4", whose suffix is empty. */
  lemma HiddenNameRejected()
    ensures !Accepts(DefaultFormats, ".mp4")
  {
    Paths.BareName(".mp4", 0);
    assert Lower("") == "";
  }
}
