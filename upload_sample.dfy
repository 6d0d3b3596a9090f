/**
 * The upload of the body in `mobius/www/test/test_utils.py`, end to end: the
 * header sets the parser reads from it carry the field names the handler
 * routes by, and the handler writes `test content` to the temporary file and
 * takes `test file` as the user's file name.
 */
module UploadSample {
  import opened Wrappers
  import opened Text
  import opened Dicts
  import opened Multipart
  import opened MultipartParser
  import opened MultipartSample
  import opened Upload

  /** A file part followed by a file-name part: the file gets the first chunk and the name is the second, decoded. */
  lemma FileThenName(h: Handler, p: int, hs1: HeaderSet, c1: bytes, hs2: HeaderSet, c2: bytes, name: string)
    requires IsFileChunk(hs1) && IsNameChunk(hs2) && Utf8Decode(c2) == Some(name)
    ensures var r := Replay(h, Some(p), [(hs1, c1), (hs2, c2)]);
      r.1.None? && r.0.file == h.file + c1 && r.0.userFileName == Some(name) && r.0.curHeaders == Some(hs2)
  {
    var ds := [(hs1, c1), (hs2, c2)];
    assert FILE_FIELD[4] != NAME_FIELD[4];
    assert ds[..1] == [(hs1, c1)] && ds[..1][..0] == [];
    var r1 := ReceiveStep(h, Some(p), hs1, c1);
    assert Replay(h, Some(p), ds[..1]) == r1;
    assert Replay(h, Some(p), ds) == ReceiveStep(r1.0, Some(p), hs2, c2);
  }

  /** The first header set of the test: its `Content-Disposition` is `form-data` with name `fileID` and filename `test.stl`. */
  lemma FileHeadersRead()
    ensures Lookup(FileHeaders(), Upload.DISPOSITION) == Some(Single(NamedHeader(Upload.DISPOSITION, "form-data", FILE_ID_PARAMS)))
    ensures Lookup(FILE_ID_PARAMS, "name") == Some(FILE_FIELD) && Lookup(FILE_ID_PARAMS, "filename") == Some("test.stl")
    ensures IsFileChunk(FileHeaders())
  {
  }

  /** The second header set: its field is `fileName`. */
  lemma FieldHeadersRead()
    ensures IsNameChunk(FieldHeaders()) && !IsFileChunk(FieldHeaders())
  {
  }

  /**
   * The test's request, received by a fresh handler in one chunk at any
   * progress and without an envelope: the file holds `test content`, the
   * user's file name is `test file`, two different header sets were seen, and
   * no progress reply was sent.
   */
  lemma SampleUpload(p: int)
    ensures var r := Replay(Handler(None, None, [], None, []), Some(p),
        [(FileHeaders(), TestContent()), (FieldHeaders(), TestFile())]);
      r.1.None? && r.0.file == TestContent() && r.0.userFileName == Some("test file") && r.0.progressReplies == []
    ensures FileHeaders() != FieldHeaders()
  {
    FileHeadersRead();
    FieldHeadersRead();
    Utf8DecodeAscii("test file");
    FileThenName(Handler(None, None, [], None, []), p, FileHeaders(), TestContent(), FieldHeaders(), TestFile(), "test file");
    assert [] + TestContent() == TestContent();
    ReplayRepliesProgress(Handler(None, None, [], None, []), Some(p), [(FileHeaders(), TestContent()), (FieldHeaders(), TestFile())]);
  }
}
