/**
 * The three client operations the upload depends on, as a stub whose outcomes are fixed when it
 * is made and whose calls are recorded, in order, in a trace.
 */
module Remote {
  import opened Wrappers
  import opened Values
  import opened Datasets

  /** The handle `create_dataset` returns. */
  datatype RemoteDataset = RemoteDataset(id: string)

  datatype Call =
    | CreateCall(metadata: map<string, Value>)
    | UploadCall(dataset: RemoteDataset, path: string)
    | DeleteCall(id: string)

  class Client {
    /** Every call made so far. */
    var trace: seq<Call>
    /** What `create_dataset` returns or raises. */
    const createOutcome: Result<RemoteDataset>
    /** The paths whose `upload_file` raises, and the error it raises. */
    const failingUploads: set<string>
    const uploadError: Error
    /** What `delete_dataset` raises, if anything. */
    const deleteError: Option<Error>

    constructor (createOutcome: Result<RemoteDataset>, failingUploads: set<string>, uploadError: Error, deleteError: Option<Error>)
      ensures trace == []
      ensures this.createOutcome == createOutcome && this.failingUploads == failingUploads
      ensures this.uploadError == uploadError && this.deleteError == deleteError
    {
      trace := [];
      this.createOutcome := createOutcome;
      this.failingUploads := failingUploads;
      this.uploadError := uploadError;
      this.deleteError := deleteError;
    }

    /** What `upload_file` gives for a file. */
    function UploadOutcome(file: File): Result<()> {
      if file.path in failingUploads then Err(uploadError) else Ok(())
    }

    method CreateDataset(metadata: map<string, Value>) returns (r: Result<RemoteDataset>)
      modifies this
      ensures trace == old(trace) + [CreateCall(metadata)]
      ensures r == createOutcome
    {
      trace := trace + [CreateCall(metadata)];
      r := createOutcome;
    }

    method UploadFile(dataset: RemoteDataset, file: File) returns (r: Result<()>)
      modifies this
      ensures trace == old(trace) + [UploadCall(dataset, file.path)]
      ensures r == UploadOutcome(file)
    {
      trace := trace + [UploadCall(dataset, file.path)];
      r := UploadOutcome(file);
    }

    method DeleteDataset(id: string) returns (r: Option<Error>)
      modifies this
      ensures trace == old(trace) + [DeleteCall(id)]
      ensures r == deleteError
    {
      trace := trace + [DeleteCall(id)];
      r := deleteError;
    }
  }
}
