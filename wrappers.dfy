/** Failure-carrying datatypes shared by every module of the model. */
module Wrappers {

  /** PHP's nullable value: `null` is None. */
  datatype Option<T> = None | Some(value: T) {
    function GetOr(default: T): T {
      match this
      case Some(v) => v
      case None => default
    }
  }

  /** A call that either returns normally or throws `error`. */
  datatype Outcome<E> = Pass | Fail(error: E)

  /** A call that either returns `value` or throws `error`. */
  datatype Result<T, E> = Ok(value: T) | Err(error: E)
}

/** The exceptions the file layer throws, one constructor per exception class. */
module Errors {

  /** Which of the two messages a filesystem exception carries. */
  datatype Why =
    | Missing   // "... does not exist." / "... cannot be created."
    | Present   // "... already exists." / "... cannot be removed. Check access rights."

  datatype Error =
    | PermissionDenied                    // Venne\Files\PermissionDeniedException
    | RemoveFile(path: string, why: Why)  // RemoveFileException
    | RenameFile(path: string, why: Why)  // RenameFileException
    | UploadFile                          // UploadFileException
    | InvalidState                        // Nette\InvalidStateException, thrown by a failed FileUpload::move
    | CreateDirectory(path: string, why: Why)
    | RemoveDirectory(path: string, why: Why)
    | RenameDirectory(path: string, why: Why)
    | BadRequest                          // Nette\Application\BadRequestException
    | ForbiddenRequest                    // Nette\Application\ForbiddenRequestException
    | NotFound                            // a repository lookup returned null and the caller dereferenced it
    | WrongType                           // a typed parameter received an entity of the other class
    | BadExtension(path: string)          // Latte\CompileException of the image macro
    | IntoOwnSubtree                      // a drop that would make a directory its own ancestor (refused by the corrected model)
}
