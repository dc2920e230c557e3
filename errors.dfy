/** Error values shared by the metadata store and the file keeper. */
module Errors {

  datatype Option<T> = None | Some(value: T)

  /** The two kinds of operating-system error the storage code tells apart:
      `fs.ErrNotExist` and every other failure (permissions, disk full, ...). */
  datatype IoError = NotExist | OtherIoError

  /** The `error` values the storage core returns. */
  datatype Error =
    | StorageFilePathEmpty   // "StorageFilePath is empty"
    | FolderNameEmpty        // "FolderName is empty", with a trailing newline when `Save` returns it
    | FileNotFound           // "file not found"
    | Io(cause: IoError)     // an error passed through from the operating system

  datatype Result<T> = Ok(value: T) | Err(error: Error)
}
