/** Error values of the compiler and of the Obsidian integration (src/error.rs). */
module Error {

  datatype Md2msError =
    | FileNotFound(path: string)
    | NoFilesInMetadata
    | PackError
    | Unknown

  datatype ObsidianError =
    | DirectoryCreationError
    | HttpError
    | OtherError
    | ParseError
}
