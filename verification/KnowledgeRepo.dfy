/** `knowledge_files` and the number of `document_chunks` rows each file owns. */
module KnowledgeRepo {
  import opened Wrappers
  import opened TaskRepo

  datatype FileStatus = Uploaded | Parsing | Chunking | Ready | FileFailed

  datatype FileRow = FileRow(status: FileStatus, owner: Option<nat>, updatedAt: Time)

  predicate FileHits(files: map<FileId, FileRow>, id: FileId, expected: set<FileStatus>) {
    id in files && files[id].status in expected
  }

  function FileMoved(
    files: map<FileId, FileRow>, id: FileId, expected: set<FileStatus>, target: FileStatus, clock: Time)
    : map<FileId, FileRow>
  {
    if FileHits(files, id, expected) then files[id := files[id].(status := target, updatedAt := clock)] else files
  }

  class KnowledgeTables {
    var files: map<FileId, FileRow>
    var chunks: map<FileId, nat>

    constructor ()
      ensures files == map[] && chunks == map[]
    {
      files, chunks := map[], map[];
    }

    method TryTransitionFileStatus(id: FileId, expected: set<FileStatus>, target: FileStatus, clock: Time)
      returns (ok: bool)
      modifies this`files
      ensures files == FileMoved(old(files), id, expected, target, clock)
      ensures ok <==> FileHits(old(files), id, expected)
    {
      ok := id in files && files[id].status in expected;
      if ok {
        files := files[id := files[id].(status := target, updatedAt := clock)];
      }
    }

    // DELETE FROM document_chunks WHERE file_id = id
    method DeleteChunksForFile(id: FileId)
      modifies this`chunks
      ensures chunks == old(chunks) - {id}
    {
      chunks := map f | f in chunks && f != id :: chunks[f];
    }
  }
}
