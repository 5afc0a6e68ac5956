/** Part sizes and the part loop of a multipart upload. */
module Multipart {
  import opened Bytes

  const PART_SIZE: nat := 8 * 1024 * 1024
  const MAX_PARTS: nat := 10_000
  const MAX_OBJECT_SIZE: nat := 5 * 1024 * 1024 * 1024 * 1024

  function MultipartPartSize(fileSize: nat): Result<nat> {
    if fileSize > MAX_OBJECT_SIZE then Err
    else Ok(Max(PART_SIZE, fileSize / MAX_PARTS + if fileSize % MAX_PARTS == 0 then 0 else 1))
  }

  /** The part size is enough for the whole file, and beyond the normal size it is the least that is. */
  lemma PartSizeSuffices(fileSize: nat)
    requires MultipartPartSize(fileSize).Ok?
    ensures var size := MultipartPartSize(fileSize).value;
            && PART_SIZE <= size && fileSize <= MAX_PARTS * size
            && (size > PART_SIZE ==> MAX_PARTS * (size - 1) < fileSize)
  {
  }

  /** Consecutive parts of the given size, of which only the last may be shorter. */
  ghost predicate IsTiling(data: Bytes, partSize: nat, parts: seq<Bytes>) {
    && Flatten(parts) == data
    && (forall i | 0 <= i < |parts| :: 0 < |parts[i]| <= partSize)
    && (forall i | 0 <= i < |parts| - 1 :: |parts[i]| == partSize)
  }

  /** The file is cut into consecutive parts, at most 10,000 of them; an empty file gives an error. */
  method UploadParts(data: Bytes, partSize: nat) returns (r: Result<seq<Bytes>>)
    requires 0 < partSize
    ensures r.Ok? <==> data != [] && |data| <= MAX_PARTS * partSize
    ensures r.Ok? ==> IsTiling(data, partSize, r.value) && |r.value| <= MAX_PARTS
  {
    var parts, partNumber, offset: nat := [], 1, 0;
    while offset < |data|
      invariant offset <= |data| && partNumber == |parts| + 1 <= MAX_PARTS + 1
      invariant Flatten(parts) == data[..offset]
      invariant forall i | 0 <= i < |parts| :: 0 < |parts[i]| <= partSize
      invariant forall i | 0 <= i < |parts| - 1 :: |parts[i]| == partSize
      invariant offset < |data| ==> offset == |parts| * partSize
      invariant parts != [] ==> |parts[|parts| - 1]| < partSize ==> offset == |data|
      invariant offset <= |parts| * partSize && (parts == [] <==> offset == 0)
    {
      if partNumber > MAX_PARTS {
        return Err;
      }
      var toRead := Min(|data| - offset, partSize);
      var part := data[offset..offset + toRead];
      FlattenSnoc(parts, part);
      SliceJoin(data, 0, offset, offset + toRead);
      Product(|parts|, partSize);
      parts := parts + [part];
      partNumber := partNumber + 1;
      offset := offset + toRead;
    }
    Bounded(|parts|, partSize);
    if parts == [] {
      return Err;
    }
    r := Ok(parts);
  }

  lemma Product(n: nat, size: nat)
    ensures (n + 1) * size == n * size + size
  {
  }

  lemma Bounded(n: nat, size: nat)
    ensures n <= MAX_PARTS ==> n * size <= MAX_PARTS * size
  {
    if n <= MAX_PARTS {
      assert MAX_PARTS * size == n * size + (MAX_PARTS - n) * size;
    }
  }

  /** Every file from one byte up to 5 TiB is uploaded whole in at most 10,000 consecutive parts. */
  method MultipartUpload(data: Bytes) returns (r: Result<seq<Bytes>>)
    ensures r.Ok? <==> 0 < |data| <= MAX_OBJECT_SIZE
    ensures r.Ok? ==> IsTiling(data, MultipartPartSize(|data|).value, r.value) && |r.value| <= MAX_PARTS
  {
    var size :- MultipartPartSize(|data|);
    PartSizeSuffices(|data|);
    r := UploadParts(data, size);
  }
}
