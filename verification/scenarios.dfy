/** Clients of the Helper class: what a caller can conclude from the
    contracts alone. */
module Scenarios {
  import opened Wrappers
  import opened Sanitizer
  import opened Helper

  /** Sending "hi" with `/tmp/clip.webm` whose conversion succeeds: one
      captioned video message from the converted file, the converted file
      gone afterwards, the original and unrelated files left alone; the later
      ledger sweep then finds nothing more to delete. */
  method SendClipScenario()
  {
    var h := new Helper({"/tmp/clip.webm", "/tmp/notes.txt"});
    var ok := h.SendMessageWithOptionalMedia("ops@g.us", "hi", Some("/tmp/clip.webm"), Some("video/webm"), true, p => 1024, true);
    ClipExample("/tmp/clip.webm");
    WebmOutcome("/tmp/clip.webm", true, p => 1024);
    assert h.outbox[0].MediaMessage? && h.outbox[0].caption == "hi";
    assert h.outbox[0].media == MediaFrom("/tmp/clip.mp4");
    assert h.files == {"/tmp/clip.webm", "/tmp/notes.txt"};
    assert h.ledger == ["/tmp/clip.mp4"];
    h.CleanupTempFiles();
    assert h.ledger == [] && h.files == {"/tmp/clip.webm", "/tmp/notes.txt"};
  }

  /** A failed send still removes the converted file. */
  method FailedSendScenario()
  {
    var h := new Helper({"/tmp/clip.webm"});
    var ok := h.SendMessageWithOptionalMedia("ops@g.us", "hi", Some("/tmp/clip.webm"), Some("video/webm"), true, p => 1024, false);
    ClipExample("/tmp/clip.webm");
    assert !ok && |h.outbox| == 1;
    assert "/tmp/clip.mp4" !in h.files && "/tmp/clip.webm" in h.files;
  }
}
